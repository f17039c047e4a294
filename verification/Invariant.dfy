/** What every reachable state keeps: the CAS holds what its keys say, the action cache is
    closed over the CAS, and a call in progress knows what it has checked. */
module Invariant {
  import opened Wrappers
  import opened Messages
  import opened Primitives
  import opened BlobStore
  import opened BlobCodec
  import opened Calls
  import opened Server
  import opened Steps
  import Uploads
  import Digests

  // ----- Stores ------------------------------------------------------------

  /** A blob the server could have put under a CAS key. */
  predicate CasEntry(p: Primitives, key: BlobKey, b: Blob) {
    var content := ContentOf(p, b);
    && b == Canonical(p, content, b.metadata.encoding)
    && |content| <= MAX_DECOMPRESSED_BLOB_SIZE
    && Digests.HashBytes(p, key.algorithm, content) == key.hash
    && (b.metadata.encoding == Identity ==> content == [])
  }

  predicate Present(store: Store, scope: Scope, d: Digest) {
    scope.CasKey(d.hash) in store
  }

  predicate AllPresent(store: Store, scope: Scope, digests: seq<Digest>) {
    forall i | 0 <= i < |digests| :: Present(store, scope, digests[i])
  }

  /** The files of the output tree stored under a digest. */
  function TreeFiles(p: Primitives, store: Store, scope: Scope, d: Digest): Option<seq<Digest>> {
    var key := scope.CasKey(d.hash);
    if key !in store then None
    else match p.decodeTree(ContentOf(p, store[key]))
      case None => None
      case Some(tree) => TreeDigests(tree)
  }

  /** The tree stored under a digest. */
  function TreeAt(p: Primitives, store: Store, scope: Scope, d: Digest): Option<Tree> {
    var key := scope.CasKey(d.hash);
    if key in store then p.decodeTree(ContentOf(p, store[key])) else None
  }

  predicate FilesPresent(store: Store, scope: Scope, files: seq<FileNode>) {
    forall i | 0 <= i < |files| :: files[i].digest.Some? && Present(store, scope, files[i].digest.value)
  }

  /** The tree is there, decodes, has a root, and every file of the root and of every child has a
      digest that is there. */
  predicate TreeClosed(p: Primitives, store: Store, scope: Scope, directory: OutputDirectory) {
    && directory.treeDigest.Some?
    && var tree := TreeAt(p, store, scope, directory.treeDigest.value);
       && tree.Some? && tree.value.root.Some?
       && FilesPresent(store, scope, tree.value.root.value.files)
       && forall c | 0 <= c < |tree.value.children| :: FilesPresent(store, scope, tree.value.children[c].files)
  }

  /** Everything an action result refers to is in the CAS of its instance. */
  predicate Closed(p: Primitives, store: Store, scope: Scope, r: ActionResult) {
    && (forall i | 0 <= i < |r.outputFiles| ::
          r.outputFiles[i].digest.Some? && Present(store, scope, r.outputFiles[i].digest.value))
    && (r.stdoutDigest.Some? ==> Present(store, scope, r.stdoutDigest.value))
    && (r.stderrDigest.Some? ==> Present(store, scope, r.stderrDigest.value))
    && (forall i | 0 <= i < |r.outputDirectories| :: TreeClosed(p, store, scope, r.outputDirectories[i]))
  }

  /** The command named by the Action stored under a hash. */
  function CommandOf(p: Primitives, store: Store, scope: Scope, actionHash: string): Option<Digest> {
    var key := scope.CasKey(actionHash);
    if key !in store then None
    else match p.decodeAction(ContentOf(p, store[key]))
      case None => None
      case Some(action) => action.commandDigest
  }

  predicate ActionReady(p: Primitives, store: Store, scope: Scope, actionHash: string) {
    var command := CommandOf(p, store, scope, actionHash);
    command.Some? && Present(store, scope, command.value)
  }

  /** The result an action cache blob records. */
  function ResultOf(p: Primitives, b: Blob): Option<ActionResult> {
    p.decodeResult(ContentOf(p, b))
  }

  function ScopeOf(key: BlobKey): Scope {
    Scope(key.instance, key.algorithm)
  }

  /** A blob the server could put under an action cache key over this CAS. */
  predicate AcEntry(p: Primitives, store: Store, key: BlobKey, b: Blob) {
    var bytes := ContentOf(p, b);
    && b == Canonical(p, bytes, Zstd)
    && |bytes| <= MAX_DECOMPRESSED_BLOB_SIZE
    && ResultOf(p, b).Some?
    && bytes == p.encodeResult(ResultOf(p, b).value)
    && Closed(p, store, ScopeOf(key), ResultOf(p, b).value)
    && ActionReady(p, store, ScopeOf(key), key.hash)
  }

  predicate StoreOk(p: Primitives, store: Store) {
    && (forall k | k in store && k.kind == ContentAddressableStorage :: CasEntry(p, k, store[k]))
    && (forall k | k in store && k.kind == ActionCache :: AcEntry(p, store, k, store[k]))
  }

  // ----- Calls in progress -------------------------------------------------

  /** The digests gathered so far include the result's own and those of its first n trees. */
  predicate Gathered(p: Primitives, store: Store, job: Job, n: nat, digests: seq<Digest>)
  {
    var r := job.result;
    && n <= |r.outputDirectories|
    && ResultDigests(r).Some?
    && (forall i | 0 <= i < |ResultDigests(r).value| :: ResultDigests(r).value[i] in digests)
    && (forall i | 0 <= i < n :: TreeGathered(p, store, job.scope, r.outputDirectories[i], digests))
  }

  predicate TreeGathered(p: Primitives, store: Store, scope: Scope, directory: OutputDirectory, digests: seq<Digest>) {
    && directory.treeDigest.Some?
    && var files := TreeFiles(p, store, scope, directory.treeDigest.value);
       && files.Some?
       && forall i | 0 <= i < |files.value| :: files.value[i] in digests
  }

  /** What a call has established by the time it stands here. */
  predicate Established(p: Primitives, store: Store, pc: Pc) {
    match pc
    case Committing(commit) => commit.key.kind == ContentAddressableStorage && CasEntry(p, commit.key, commit.blob)
    case CheckingCommand(scope, actionHash, _, command) => CommandOf(p, store, scope, actionHash) == Some(command)
    case CollectingTrees(job, next, digests) =>
      if job.update
      then ActionReady(p, store, job.scope, job.actionHash) && Gathered(p, store, job, next, digests)
      else Closed(p, store, job.scope, job.result) && AllPresent(store, job.scope, digests)
    case CheckingArtifacts(job, next, digests) =>
      if job.update
      then && ActionReady(p, store, job.scope, job.actionHash)
           && Gathered(p, store, job, |job.result.outputDirectories|, digests)
           && next <= |digests| && AllPresent(store, job.scope, digests[..next])
      else Closed(p, store, job.scope, job.result) && AllPresent(store, job.scope, digests)
    case Recording(scope, actionHash, result) =>
      Closed(p, store, scope, result) && ActionReady(p, store, scope, actionHash)
    case _ => true
  }

  predicate Inv(p: Primitives, s: System) {
    && StoreOk(p, s.store)
    && CasContents(p, s.store) <= s.seen
    && (forall id | id in s.sessions :: Established(p, s.store, s.sessions[id].pc))
  }

  // ----- The files of a tree -----------------------------------------------

  /** Every file of the directory has a digest. */
  predicate FilesComplete(files: seq<FileNode>) {
    forall i | 0 <= i < |files| :: files[i].digest.Some?
  }

  predicate HasFile(files: seq<FileNode>, d: Digest) {
    exists i | 0 <= i < |files| :: files[i].digest == Some(d)
  }

  lemma {:induction false} NodeDigestsAreAll(files: seq<FileNode>)
    ensures NodeDigests(files).Some? <==> FilesComplete(files)
    ensures NodeDigests(files).Some? ==>
              && |NodeDigests(files).value| == |files|
              && (forall i | 0 <= i < |files| :: files[i].digest == Some(NodeDigests(files).value[i]))
              && (forall d :: d in NodeDigests(files).value <==> HasFile(files, d))
  {
    if files == [] {
    } else {
      NodeDigestsAreAll(files[1..]);
      assert forall i | 0 <= i < |files[1..]| :: files[1..][i] == files[i + 1];
      assert forall i | 0 < i < |files| :: files[i] == files[1..][i - 1];
      if NodeDigests(files).Some? {
        var all := NodeDigests(files).value;
        assert forall i | 0 <= i < |files| :: files[i].digest == Some(all[i]);
      }
    }
  }

  lemma {:induction false} DirectoriesDigestsAreAll(directories: seq<Directory>)
    ensures DirectoriesDigests(directories).Some? <==>
            forall c | 0 <= c < |directories| :: FilesComplete(directories[c].files)
    ensures DirectoriesDigests(directories).Some? ==>
              forall d :: d in DirectoriesDigests(directories).value <==>
                          exists c | 0 <= c < |directories| :: HasFile(directories[c].files, d)
  {
    hide NodeDigests, FilesComplete, HasFile;
    if directories == [] {
    } else {
      var first, rest := directories[0], directories[1..];
      NodeDigestsAreAll(first.files);
      DirectoriesDigestsAreAll(rest);
      assert forall c | 0 <= c < |rest| :: rest[c] == directories[c + 1];
      assert forall c | 0 < c < |directories| :: directories[c] == rest[c - 1];
    }
  }

  /** The digests of a tree are those of the root's files and of every child's, all of them and no
      others; there are none exactly when the root or one of these digests is missing. */
  lemma TreeDigestsAreAll(tree: Tree)
    ensures TreeDigests(tree).Some? <==>
            && tree.root.Some? && FilesComplete(tree.root.value.files)
            && forall c | 0 <= c < |tree.children| :: FilesComplete(tree.children[c].files)
    ensures TreeDigests(tree).Some? ==>
              forall d :: d in TreeDigests(tree).value <==>
                          || HasFile(tree.root.value.files, d)
                          || exists c | 0 <= c < |tree.children| :: HasFile(tree.children[c].files, d)
  {
    hide DirectoriesDigests, FilesComplete, HasFile;
    if tree.root.Some? {
      var all := [tree.root.value] + tree.children;
      DirectoriesDigestsAreAll(all);
      assert all[0] == tree.root.value && forall c | 0 <= c < |tree.children| :: all[c + 1] == tree.children[c];
      assert forall c | 0 < c < |all| :: all[c] == tree.children[c - 1];
    }
  }

  /** The files of the first c directories. */
  function FilesBefore(directories: seq<Directory>, c: nat): nat
    requires c <= |directories|
  {
    if c == 0 then 0 else FilesBefore(directories, c - 1) + |directories[c - 1].files|
  }

  lemma {:induction false} FilesBeforeRest(directories: seq<Directory>, c: nat)
    requires 0 < c <= |directories|
    ensures FilesBefore(directories, c) == |directories[0].files| + FilesBefore(directories[1..], c - 1)
    decreases c
  {
    if c == 1 {
    } else {
      FilesBeforeRest(directories, c - 1);
    }
  }

  lemma {:induction false} DirectoriesDigestAt(directories: seq<Directory>, c: nat, i: nat)
    requires DirectoriesDigests(directories).Some? && c < |directories| && i < |directories[c].files|
    ensures var all, at := DirectoriesDigests(directories).value, FilesBefore(directories, c) + i;
            at < |all| && directories[c].files[i].digest == Some(all[at])
    decreases c
  {
    var first, rest := NodeDigests(directories[0].files).value, DirectoriesDigests(directories[1..]).value;
    assert DirectoriesDigests(directories).value == first + rest;
    NodeDigestsAreAll(directories[0].files);
    hide NodeDigests, DirectoriesDigests;
    if c == 0 {
      assert FilesBefore(directories, 0) == 0;
    } else {
      DirectoriesDigestAt(directories[1..], c - 1, i);
      FilesBeforeRest(directories, c);
      hide FilesBefore;
    }
  }

  lemma {:induction false} DirectoriesDigestsCount(directories: seq<Directory>)
    requires DirectoriesDigests(directories).Some?
    ensures |DirectoriesDigests(directories).value| == FilesBefore(directories, |directories|)
  {
    if directories == [] {
    } else {
      NodeDigestsAreAll(directories[0].files);
      hide NodeDigests;
      DirectoriesDigestsCount(directories[1..]);
      FilesBeforeRest(directories, |directories|);
    }
  }

  lemma TreeAsDirectories(tree: Tree)
    requires TreeDigests(tree).Some?
    ensures var directories := [tree.root.value] + tree.children;
            && DirectoriesDigests(directories) == TreeDigests(tree)
            && FilesBefore(directories, 0) == 0
            && forall c | 0 <= c <= |tree.children| ::
                 FilesBefore(directories, c + 1) == |tree.root.value.files| + FilesBefore(tree.children, c)
  {
    var directories := [tree.root.value] + tree.children;
    assert directories[1..] == tree.children;
    forall c | 0 <= c <= |tree.children|
      ensures FilesBefore(directories, c + 1) == |tree.root.value.files| + FilesBefore(tree.children, c)
    {
      FilesBeforeRest(directories, c + 1);
    }
  }

  /** The digests of a tree, place by place: first the root's files, then those of each child. */
  lemma TreeDigestsInOrder(tree: Tree, c: nat, i: nat)
    requires TreeDigests(tree).Some?
    ensures var root, children, all := tree.root.value, tree.children, TreeDigests(tree).value;
            && |all| == |root.files| + FilesBefore(children, |children|)
            && (i < |root.files| ==> root.files[i].digest == Some(all[i]))
            && (c < |children| && i < |children[c].files| ==>
                  var at := |root.files| + FilesBefore(children, c) + i;
                  at < |all| && children[c].files[i].digest == Some(all[at]))
  {
    TreeAsDirectories(tree);
    hide DirectoriesDigests, FilesBefore, TreeDigests;
    var directories := [tree.root.value] + tree.children;
    DirectoriesDigestsCount(directories);
    if i < |tree.root.value.files| {
      DirectoriesDigestAt(directories, 0, i);
    }
    if c < |tree.children| && i < |tree.children[c].files| {
      assert directories[c + 1] == tree.children[c];
      DirectoriesDigestAt(directories, c + 1, i);
    }
  }

  /** A closed tree, in terms of the digests gathered from it. */
  lemma TreeClosedMeans(p: Primitives, store: Store, scope: Scope, directory: OutputDirectory)
    ensures TreeClosed(p, store, scope, directory) <==>
            && directory.treeDigest.Some?
            && TreeFiles(p, store, scope, directory.treeDigest.value).Some?
            && AllPresent(store, scope, TreeFiles(p, store, scope, directory.treeDigest.value).value)
  {
    hide ContentOf, TreeDigests;
    if directory.treeDigest.Some? && TreeAt(p, store, scope, directory.treeDigest.value).Some? {
      var tree := TreeAt(p, store, scope, directory.treeDigest.value).value;
      TreeDigestsAreAll(tree);
      if TreeDigests(tree).Some? {
        TreeFilesPresent(store, scope, tree);
      }
    }
  }

  lemma FilesPresentMeans(store: Store, scope: Scope, files: seq<FileNode>)
    ensures FilesPresent(store, scope, files) <==>
            FilesComplete(files) && forall d | HasFile(files, d) :: Present(store, scope, d)
  {
    if FilesComplete(files) {
      assert forall i | 0 <= i < |files| :: HasFile(files, files[i].digest.value);
    }
  }

  lemma TreeFilesPresent(store: Store, scope: Scope, tree: Tree)
    requires TreeDigests(tree).Some?
    ensures AllPresent(store, scope, TreeDigests(tree).value) <==>
            && FilesPresent(store, scope, tree.root.value.files)
            && forall c | 0 <= c < |tree.children| :: FilesPresent(store, scope, tree.children[c].files)
  {
    TreeDigestsAreAll(tree);
    var all := TreeDigests(tree).value;
    assert AllPresent(store, scope, all) <==> forall d | d in all :: Present(store, scope, d);
    FilesPresentMeans(store, scope, tree.root.value.files);
    forall c | 0 <= c < |tree.children|
      ensures FilesPresent(store, scope, tree.children[c].files) <==>
              FilesComplete(tree.children[c].files) &&
              forall d | HasFile(tree.children[c].files, d) :: Present(store, scope, d)
    {
      FilesPresentMeans(store, scope, tree.children[c].files);
    }
    hide TreeDigests, FilesPresent, FilesComplete, HasFile, Present, AllPresent;
  }

  // ----- Growth ------------------------------------------------------------

  /** Nothing is lost, and what a CAS key means does not change. */
  predicate Extends(p: Primitives, store: Store, after: Store) {
    && (forall k | k in store :: k in after)
    && (forall k | k in store && k.kind == ContentAddressableStorage ::
          ContentOf(p, after[k]) == ContentOf(p, store[k]))
  }

  lemma ClosedGrows(p: Primitives, store: Store, after: Store, scope: Scope, r: ActionResult)
    requires Extends(p, store, after) && Closed(p, store, scope, r)
    ensures Closed(p, after, scope, r)
  {
    hide Meaning, TreeDigests, ContentOf;
    forall i | 0 <= i < |r.outputDirectories|
      ensures TreeClosed(p, after, scope, r.outputDirectories[i])
    {
      assert TreeClosed(p, store, scope, r.outputDirectories[i]);
    }
  }

  lemma ActionReadyGrows(p: Primitives, store: Store, after: Store, scope: Scope, actionHash: string)
    requires Extends(p, store, after) && ActionReady(p, store, scope, actionHash)
    ensures ActionReady(p, after, scope, actionHash)
  {
    hide ContentOf;
  }

  lemma GatheredGrows(p: Primitives, store: Store, after: Store, job: Job, n: nat, digests: seq<Digest>,
          more: seq<Digest>)
    requires Extends(p, store, after) && Gathered(p, store, job, n, digests)
    ensures Gathered(p, after, job, n, digests + more)
  {
    hide ContentOf, TreeDigests, ResultDigests;
    forall i | 0 <= i < n
      ensures TreeGathered(p, after, job.scope, job.result.outputDirectories[i], digests + more)
    {
      assert TreeGathered(p, store, job.scope, job.result.outputDirectories[i], digests);
    }
  }

  lemma EstablishedGrows(p: Primitives, store: Store, after: Store, pc: Pc)
    requires Extends(p, store, after) && Established(p, store, pc)
    ensures Established(p, after, pc)
  {
    hide ContentOf, TreeDigests, ResultDigests, Closed, Gathered, CasEntry;
    match pc
    case CollectingTrees(job, next, digests) =>
      if job.update {
        GatheredGrows(p, store, after, job, next, digests, []);
        assert digests + [] == digests;
      } else {
        ClosedGrows(p, store, after, job.scope, job.result);
      }
    case CheckingArtifacts(job, next, digests) =>
      if job.update {
        GatheredGrows(p, store, after, job, |job.result.outputDirectories|, digests, []);
        assert digests + [] == digests;
      } else {
        ClosedGrows(p, store, after, job.scope, job.result);
      }
    case Recording(scope, actionHash, result) =>
      ClosedGrows(p, store, after, scope, result);
    case _ =>
  }

  // ----- Steps -------------------------------------------------------------

  lemma {:induction false} FileDigestsAreAll(files: seq<OutputFile>)
    ensures FileDigests(files).Some? <==> forall i | 0 <= i < |files| :: files[i].digest.Some?
    ensures FileDigests(files).Some? ==>
              && |FileDigests(files).value| == |files|
              && forall i | 0 <= i < |files| :: files[i].digest == Some(FileDigests(files).value[i])
  {
    if files == [] {
    } else {
      FileDigestsAreAll(files[1..]);
    }
  }

  lemma CanonicalContent(p: Primitives, content: Bytes, encoding: StorageEncoding)
    requires Lawful(p)
    ensures ContentOf(p, Canonical(p, content, encoding)) == content
  {
  }

  lemma AdmittedIsCasEntry(p: Primitives, key: BlobKey, size: Int64, data: Bytes, encoding: StorageEncoding)
    requires Lawful(p)
    requires Uploads.Admit(p, key.algorithm, key.hash, size, data, encoding).Success?
    ensures CasEntry(p, key, Uploads.Admit(p, key.algorithm, key.hash, size, data, encoding).value)
  {
    Uploads.AdmittedExactlyWhenGenuine(p, key.algorithm, key.hash, size, data, encoding);
    CanonicalContent(p, Content(p, data, encoding), Zstd);
  }

  lemma EmptyIsCasEntry(p: Primitives, scope: Scope)
    requires Lawful(p)
    ensures CasEntry(p, scope.CasKey(EMPTY_SHA256), IdentityBlob([]))
  {
  }

  /** A pending stream write carries a blob its key allows. */
  predicate CommitSound(p: Primitives, pc: Pc) {
    pc.Committing? ==> pc.commit.key.kind == ContentAddressableStorage && CasEntry(p, pc.commit.key, pc.commit.blob)
  }

  /** All three writers of the CAS put only what the key allows; nothing is assumed of the store. */
  lemma CasPutsAreSound(p: Primitives, pc: Pc)
    requires Lawful(p) && CommitSound(p, pc)
    ensures var op := NextOp(p, pc);
            && (op.Put? && op.key.kind == ContentAddressableStorage ==> CasEntry(p, op.key, op.blob))
            && (op.Put? && op.key.kind == ActionCache ==> pc.Recording?)
  {
    match pc
    case Uploading(scope, items, next, _) =>
      if next < |items| && AdmitItem(p, scope, items[next]).Success? {
        hide Uploads.Admit, CasEntry;
        var item := items[next];
        AdmittedIsCasEntry(p, scope.CasKey(item.digest.value.hash), item.digest.value.sizeBytes, item.data,
                           EncodingFromProto(item.compressor).value);
      }
    case CheckingArtifacts(job, next, digests) =>
      hide CasEntry;
      EmptyIsCasEntry(p, job.scope);
    case _ =>
  }

  /** An update records its own result, under its own key, over a CAS that closes it. */
  lemma RecordsAreSound(p: Primitives, store: Store, scope: Scope, actionHash: string, result: ActionResult)
    requires Lawful(p) && Established(p, store, Recording(scope, actionHash, result))
    ensures var op := NextOp(p, Recording(scope, actionHash, result));
            op.Put? ==>
              && op.key == scope.AcKey(actionHash)
              && AcEntry(p, store, op.key, op.blob) && ResultOf(p, op.blob) == Some(result)
  {
    hide Closed, ActionReady;
    var bytes := p.encodeResult(result);
    TranscodeCanonical(p, bytes, Identity, Zstd);
    CanonicalContent(p, bytes, Zstd);
  }

  /** The store after an operation, when hashes do not collide. */
  lemma PerformExtends(p: Primitives, store: Store, op: Op, fault: bool)
    requires StoreOk(p, store)
    requires op.Put? && op.key.kind == ContentAddressableStorage ==> CasEntry(p, op.key, op.blob)
    requires CollisionFree(p, CasContents(p, store) + CasContents(p, Perform(op, store, fault).1))
    ensures Extends(p, store, Perform(op, store, fault).1)
  {
    hide ContentOf, Canonical, AcEntry;
    var after := Perform(op, store, fault).1;
    forall k | k in store && k.kind == ContentAddressableStorage
      ensures ContentOf(p, after[k]) == ContentOf(p, store[k])
    {
      assert CasEntry(p, k, store[k]);
      assert ContentOf(p, store[k]) in CasContents(p, store) && ContentOf(p, after[k]) in CasContents(p, after);
    }
  }

  /** A put the store's invariant allows. */
  predicate SoundPut(p: Primitives, store: Store, op: Op) {
    op.Put? ==>
      if op.key.kind == ContentAddressableStorage then CasEntry(p, op.key, op.blob)
      else AcEntry(p, store, op.key, op.blob)
  }

  lemma PerformKeepsStoreOk(p: Primitives, store: Store, op: Op, fault: bool)
    requires StoreOk(p, store) && SoundPut(p, store, op)
    requires CollisionFree(p, CasContents(p, store) + CasContents(p, Perform(op, store, fault).1))
    ensures var after := Perform(op, store, fault).1;
            Extends(p, store, after) && StoreOk(p, after)
  {
    hide AcEntry, CasEntry, CasContents, Extends, CollisionFree;
    PerformExtends(p, store, op, fault);
    var after := Perform(op, store, fault).1;
    OldEntriesGrow(p, store, after);
    if op.Put? && op.key.kind == ActionCache {
      AcEntryGrows(p, store, after, op.key, op.blob);
    }
  }

  lemma OldEntriesGrow(p: Primitives, store: Store, after: Store)
    requires StoreOk(p, store) && Extends(p, store, after)
    ensures forall k | k in store && k.kind == ActionCache :: AcEntry(p, after, k, store[k])
  {
    hide AcEntry, CasEntry, Extends;
    forall k | k in store && k.kind == ActionCache
      ensures AcEntry(p, after, k, store[k])
    {
      AcEntryGrows(p, store, after, k, store[k]);
    }
  }

  lemma StepPutsSoundly(p: Primitives, store: Store, pc: Pc)
    requires Lawful(p) && Established(p, store, pc)
    ensures SoundPut(p, store, NextOp(p, pc))
  {
    hide CasEntry, AcEntry, Closed, ActionReady, Gathered;
    CasPutsAreSound(p, pc);
    if pc.Recording? {
      RecordsAreSound(p, store, pc.scope, pc.actionHash, pc.result);
    }
  }

  lemma StepKeepsStoreOk(p: Primitives, store: Store, pc: Pc, fault: bool)
    requires Lawful(p) && StoreOk(p, store) && Established(p, store, pc)
    requires CollisionFree(p, CasContents(p, store) + CasContents(p, Step(p, pc, store, fault).1))
    ensures var after := Step(p, pc, store, fault).1;
            Extends(p, store, after) && StoreOk(p, after)
  {
    StepPutsSoundly(p, store, pc);
    PerformKeepsStoreOk(p, store, NextOp(p, pc), fault);
  }

  lemma AcEntryGrows(p: Primitives, store: Store, after: Store, key: BlobKey, b: Blob)
    requires Extends(p, store, after) && AcEntry(p, store, key, b)
    ensures AcEntry(p, after, key, b)
  {
    hide Closed, ContentOf;
    ClosedGrows(p, store, after, ScopeOf(key), ResultOf(p, b).value);
  }

  /** Any entry of a sound store decodes, to what it means. */
  lemma EntryDecodes(p: Primitives, store: Store, key: BlobKey)
    requires Lawful(p) && StoreOk(p, store) && key in store
    ensures IntoIdentityData(p, store[key]) == Success(ContentOf(p, store[key]))
    ensures WellFormed(p, store[key], ContentOf(p, store[key]))
  {
    var b := store[key];
    assert key.kind == ContentAddressableStorage || key.kind == ActionCache;
    assert CasEntry(p, key, b) || AcEntry(p, store, key, b);
    TranscodeCanonical(p, ContentOf(p, b), b.metadata.encoding, Identity);
  }

  lemma CasEntryDecodes(p: Primitives, key: BlobKey, b: Blob)
    requires Lawful(p) && CasEntry(p, key, b)
    ensures IntoIdentityData(p, b) == Success(ContentOf(p, b)) && WellFormed(p, b, ContentOf(p, b))
    ensures Digests.HashBytes(p, key.algorithm, ContentOf(p, b)) == key.hash
  {
    TranscodeCanonical(p, ContentOf(p, b), b.metadata.encoding, Identity);
  }

  lemma CasEntryAt(p: Primitives, store: Store, key: BlobKey)
    requires StoreOk(p, store) && key in store && key.kind == ContentAddressableStorage
    ensures CasEntry(p, key, store[key])
  {
  }

  lemma ClosedResultDigests(p: Primitives, store: Store, scope: Scope, r: ActionResult)
    requires Closed(p, store, scope, r)
    ensures ResultDigests(r).Some? && AllPresent(store, scope, ResultDigests(r).value)
  {
    hide TreeClosed;
    FileDigestsAreAll(r.outputFiles);
  }

  /** Checking every gathered digest closes the result. */
  lemma GatheredCloses(p: Primitives, store: Store, job: Job, digests: seq<Digest>)
    requires Gathered(p, store, job, |job.result.outputDirectories|, digests)
    requires AllPresent(store, job.scope, digests)
    ensures Closed(p, store, job.scope, job.result)
  {
    hide TreeFiles, TreeClosed;
    var r := job.result;
    FileDigestsAreAll(r.outputFiles);
    var own := ResultDigests(r).value;
    var files := FileDigests(r.outputFiles).value;
    forall i | 0 <= i < |own|
      ensures Present(store, job.scope, own[i])
    {
      assert own[i] in digests;
    }
    forall i | 0 <= i < |r.outputFiles|
      ensures Present(store, job.scope, r.outputFiles[i].digest.value)
    {
      assert own[i] == files[i];
    }
    if r.stdoutDigest.Some? {
      assert own[|files|] == r.stdoutDigest.value;
    }
    if r.stderrDigest.Some? {
      assert own[|own| - 1] == r.stderrDigest.value;
    }
    forall i | 0 <= i < |r.outputDirectories|
      ensures TreeClosed(p, store, job.scope, r.outputDirectories[i])
    {
      assert TreeGathered(p, store, job.scope, r.outputDirectories[i], digests);
      TreeClosedMeans(p, store, job.scope, r.outputDirectories[i]);
    }
  }

  lemma ValidationBegins(p: Primitives, store: Store, job: Job)
    requires if job.update then ActionReady(p, store, job.scope, job.actionHash)
             else Closed(p, store, job.scope, job.result)
    ensures Established(p, store, BeginValidation(job))
    ensures !job.update ==> BeginValidation(job).CollectingTrees?
    ensures BeginValidation(job).CollectingTrees? ==> BeginValidation(job).job == job
  {
    hide Closed, ActionReady;
    if !job.update {
      ClosedResultDigests(p, store, job.scope, job.result);
    }
  }

  lemma CollectingEstablishes(p: Primitives, store: Store, job: Job, next: nat, digests: seq<Digest>, fault: bool)
    requires Lawful(p) && StoreOk(p, store) && Established(p, store, CollectingTrees(job, next, digests))
    ensures var (pc, after) := Step(p, CollectingTrees(job, next, digests), store, fault);
            && after == store && Established(p, store, pc)
            && (!job.update && !fault ==> pc.CollectingTrees? || pc.CheckingArtifacts?)
            && (pc.CollectingTrees? || pc.CheckingArtifacts? ==> pc.job == job)
  {
    hide Step, StoreOk, ContentOf, TreeDigests, ActionReady, IntoIdentityData, ResultDigests;
    CollectingStep(p, job, next, digests, store, fault);
    var directories := job.result.outputDirectories;
    assert !job.update && next < |directories| ==> TreeClosed(p, store, job.scope, directories[next]);
    if next < |directories| && directories[next].treeDigest.Some? {
      TreeClosedMeans(p, store, job.scope, directories[next]);
      var key := job.scope.CasKey(directories[next].treeDigest.value.hash);
      if key in store {
        EntryDecodes(p, store, key);
        var files := TreeFiles(p, store, job.scope, directories[next].treeDigest.value);
        if job.update && files.Some? {
          GatheredGrows(p, store, store, job, next, digests, files.value);
          assert TreeGathered(p, store, job.scope, directories[next], digests + files.value);
        }
      }
    } else if next >= |directories| {
      assert digests[..0] == [];
    }
  }

  lemma CheckingEstablishes(p: Primitives, store: Store, job: Job, next: nat, digests: seq<Digest>, fault: bool)
    requires Lawful(p) && Established(p, store, CheckingArtifacts(job, next, digests))
    requires Extends(p, store, Step(p, CheckingArtifacts(job, next, digests), store, fault).1)
    ensures var (pc, after) := Step(p, CheckingArtifacts(job, next, digests), store, fault);
            && Established(p, after, pc)
            && (!job.update && !fault ==> pc.CheckingArtifacts? || pc == Done(Cached(job.result)))
            && (pc.CheckingArtifacts? ==> pc.job == job)
  {
    var here := CheckingArtifacts(job, next, digests);
    var (pc, after) := Step(p, here, store, fault);
    hide Step, Closed, Gathered, ActionReady;
    CheckingStep(p, job, next, digests, store, fault);
    EstablishedGrows(p, store, after, here);
    if next < |digests| {
      assert job.update ==> digests[..next + 1] == digests[..next] + [digests[next]];
      assert pc == CheckingArtifacts(job, next + 1, digests) && job.update ==> Present(after, job.scope, digests[next]);
    } else if job.update {
      assert digests[..next] == digests;
      GatheredCloses(p, store, job, digests);
      assert after == store;
    }
  }

  /** Whatever a call learns from its store operation is true of the store afterwards. */
  lemma StepEstablishes(p: Primitives, store: Store, pc: Pc, fault: bool)
    requires Lawful(p) && StoreOk(p, store) && Established(p, store, pc)
    requires Extends(p, store, Step(p, pc, store, fault).1)
    ensures var (next, after) := Step(p, pc, store, fault);
            Established(p, after, next)
  {
    hide StoreOk, Closed, Gathered, ContentOf, IntoIdentityData, ResultDigests;
    match pc
    case LoadingResult(scope, hash) =>
      hide Step;
      LoadingResultStep(p, scope, hash, store, fault);
      var key := scope.AcKey(hash);
      if key in store && !fault {
        EntryDecodes(p, store, key);
        assert AcEntry(p, store, key, store[key]) by { StoreOkEntry(p, store, key); }
        ValidationBegins(p, store, Job(scope, hash, ResultOf(p, store[key]).value, false));
      }
    case LoadingAction(scope, hash, result) =>
      hide Step;
      LoadingActionStep(p, scope, hash, result, store, fault);
      var key := scope.CasKey(hash);
      if key in store {
        EntryDecodes(p, store, key);
      }
    case CheckingCommand(scope, hash, result, command) =>
      hide Step;
      CheckingCommandStep(p, scope, hash, result, command, store, fault);
      if scope.CasKey(command.hash) in store {
        ValidationBegins(p, store, Job(scope, hash, result, true));
      }
    case CollectingTrees(job, next, digests) => CollectingEstablishes(p, store, job, next, digests, fault);
    case CheckingArtifacts(job, next, digests) => CheckingEstablishes(p, store, job, next, digests, fault);
    case _ =>
  }

  lemma StoreOkEntry(p: Primitives, store: Store, key: BlobKey)
    requires StoreOk(p, store) && key in store && key.kind == ActionCache
    ensures AcEntry(p, store, key, store[key])
  {
  }
}
