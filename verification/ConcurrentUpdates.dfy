/** Updates while other calls run: what the store must hold for an update to succeed. */
module ConcurrentUpdates {
  import opened Wrappers
  import opened Messages
  import opened Primitives
  import opened BlobStore
  import opened BlobCodec
  import opened Calls
  import opened Server
  import opened Steps
  import opened Invariant
  import opened Runs
  import opened Sessions
  import opened ActionResults
  import opened Guarantees
  import Digests

  // ----- Growth ------------------------------------------------------------

  lemma {:induction false} GatherGrows(p: Primitives, store: Store, after: Store, scope: Scope, r: ActionResult, n: nat)
    requires Extends(p, store, after) && n <= |r.outputDirectories| && GatherFirst(p, store, scope, r, n).Some?
    ensures GatherFirst(p, after, scope, r, n) == GatherFirst(p, store, scope, r, n)
    decreases n
  {
    hide ContentOf, TreeDigests;
    if n == 0 {
    } else {
      GatherGrows(p, store, after, scope, r, n - 1);
    }
  }

  lemma RecordableGrows(p: Primitives, store: Store, after: Store, scope: Scope, hash: string, r: ActionResult)
    requires Extends(p, store, after) && Recordable(p, store, scope, hash, r)
    ensures Recordable(p, after, scope, hash, r)
  {
    GatherGrows(p, store, after, scope, r, |r.outputDirectories|);
    ActionReadyGrows(p, store, after, scope, hash);
    hide ActionReady, GatherFirst, ContentOf;
    var digests := GatherFirst(p, store, scope, r, |r.outputDirectories|).value;
    forall i | 0 <= i < |digests|
      ensures PassesAt(after, scope, digests, i)
    {
      assert PassesAt(store, scope, digests, i);
    }
  }

  // ----- An update that cannot be refused ----------------------------------

  /** Where an update of a recordable result stands when nothing has gone wrong. */
  predicate OnTrack(p: Primitives, store: Store, scope: Scope, hash: string, r: ActionResult, pc: Pc) {
    match pc
    case LoadingAction(_, _, _) => pc == LoadingAction(scope, hash, r)
    case CheckingCommand(_, _, _, command) =>
      pc == CheckingCommand(scope, hash, r, command) && CommandOf(p, store, scope, hash) == Some(command)
    case CollectingTrees(job, n, digests) =>
      && job == Job(scope, hash, r, true)
      && n <= |r.outputDirectories| && GatherFirst(p, store, scope, r, n) == Some(digests)
    case CheckingArtifacts(job, _, digests) =>
      job == Job(scope, hash, r, true) && GatherFirst(p, store, scope, r, |r.outputDirectories|) == Some(digests)
    case Recording(_, _, _) => pc == Recording(scope, hash, r)
    case Done(reply) => reply == Cached(r)
    case _ => false
  }

  lemma OnTrackGrows(p: Primitives, store: Store, after: Store, scope: Scope, hash: string, r: ActionResult, pc: Pc)
    requires Extends(p, store, after) && OnTrack(p, store, scope, hash, r, pc)
    ensures OnTrack(p, after, scope, hash, r, pc)
  {
    match pc
    case CheckingCommand(_, _, _, _) =>
      hide ContentOf;
    case CollectingTrees(_, n, _) =>
      hide Extends, GatherFirst;
      GatherGrows(p, store, after, scope, r, n);
    case CheckingArtifacts(_, _, _) =>
      hide Extends, GatherFirst;
      GatherGrows(p, store, after, scope, r, |r.outputDirectories|);
    case _ =>
  }

  lemma LoadingStaysOnTrack(p: Primitives, store: Store, scope: Scope, hash: string, r: ActionResult)
    requires Lawful(p) && StoreOk(p, store) && ActionReady(p, store, scope, hash)
    ensures OnTrack(p, store, scope, hash, r, Step(p, LoadingAction(scope, hash, r), store, false).0)
  {
    hide Step, StoreOk, ContentOf, IntoIdentityData;
    LoadingActionStep(p, scope, hash, r, store, false);
    EntryDecodes(p, store, scope.CasKey(hash));
  }

  lemma CommandStaysOnTrack(p: Primitives, store: Store, scope: Scope, hash: string, r: ActionResult, command: Digest)
    requires Recordable(p, store, scope, hash, r) && CommandOf(p, store, scope, hash) == Some(command)
    ensures OnTrack(p, store, scope, hash, r, Step(p, CheckingCommand(scope, hash, r, command), store, false).0)
  {
    hide Step, ContentOf;
    CheckingCommandStep(p, scope, hash, r, command, store, false);
    assert GatherFirst(p, store, scope, r, 0) == ResultDigests(r);
    if ResultDigests(r).None? {
      GatherNeedsAll(p, store, scope, r, 0, |r.outputDirectories|, FailedPrecondition);
    }
  }

  lemma CollectingStaysOnTrack(p: Primitives, store: Store, job: Job, n: nat, digests: seq<Digest>)
    requires Lawful(p) && StoreOk(p, store) && AllThere(p, store, job.scope, job.result) && job.update
    requires n <= |job.result.outputDirectories| && GatherFirst(p, store, job.scope, job.result, n) == Some(digests)
    ensures OnTrack(p, store, job.scope, job.actionHash, job.result,
                    Step(p, CollectingTrees(job, n, digests), store, false).0)
  {
    hide Step, StoreOk, GatherFirst, Passes;
    if n < |job.result.outputDirectories| {
      TreeStep(p, job, n, digests, store);
      if GatherFirst(p, store, job.scope, job.result, n + 1).None? {
        GatherNeedsAll(p, store, job.scope, job.result, n + 1, |job.result.outputDirectories|, FailedPrecondition);
      }
    } else {
      CollectingStep(p, job, n, digests, store, false);
    }
  }

  /** A digest that passes is found: an empty one met before has been stored. */
  lemma CheckingStaysOnTrack(p: Primitives, store: Store, job: Job, n: nat, digests: seq<Digest>)
    requires Passes(store, job.scope, digests) && job.update
    requires n <= |digests| && AllPresent(store, job.scope, digests[..n])
    ensures var pc := Step(p, CheckingArtifacts(job, n, digests), store, false).0;
            pc == if n < |digests| then CheckingArtifacts(job, n + 1, digests)
                  else Recording(job.scope, job.actionHash, job.result)
  {
    hide Step;
    CheckingStep(p, job, n, digests, store, false);
    if n < |digests| && !IsEmptyBlob(digests[n]) {
      assert PassesAt(store, job.scope, digests, n);
      assert forall j | 0 <= j < n :: digests[..n][j] == digests[j];
    }
  }

  lemma StaysOnTrack(p: Primitives, store: Store, scope: Scope, hash: string, r: ActionResult, pc: Pc)
    requires Lawful(p) && StoreOk(p, store) && Established(p, store, pc)
    requires Recordable(p, store, scope, hash, r) && OnTrack(p, store, scope, hash, r, pc)
    requires Extends(p, store, Step(p, pc, store, false).1)
    ensures OnTrack(p, Step(p, pc, store, false).1, scope, hash, r, Step(p, pc, store, false).0)
  {
    hide Step, StoreOk, Extends, ActionReady, GatherFirst, Passes, Gathered, Closed, CommandOf;
    var (next, after) := Step(p, pc, store, false);
    match pc {
      case LoadingAction(_, _, _) => LoadingStaysOnTrack(p, store, scope, hash, r);
      case CheckingCommand(_, _, _, command) => CommandStaysOnTrack(p, store, scope, hash, r, command);
      case CollectingTrees(job, n, digests) => CollectingStaysOnTrack(p, store, job, n, digests);
      case CheckingArtifacts(job, n, digests) => CheckingStaysOnTrack(p, store, job, n, digests);
      case Recording(_, _, _) =>
        RecordingStep(p, scope, hash, r, store, false);
        TranscodeCanonical(p, p.encodeResult(r), Identity, Zstd);
      case Done(_) => DoneStep(p, pc, store, false);
    }
    OnTrackGrows(p, store, after, scope, hash, r, next);
  }

  // ----- Runs --------------------------------------------------------------

  /** A well-formed update of this result. */
  predicate AsksToRecord(request: Request, scope: Scope, hash: string, r: ActionResult) {
    && request.UpdateResult? && request.actionDigest.Some? && request.result == Some(r)
    && request.digestFunction in {0, 1}
    && scope == Scope(request.instance, Sha256) && hash == request.actionDigest.value.hash
  }

  lemma UpdateStarts(p: Primitives, store: Store, request: Request, scope: Scope, hash: string, r: ActionResult)
    requires AsksToRecord(request, scope, hash, r)
    ensures OnTrack(p, store, scope, hash, r, Start(p, request))
  {
  }

  /** One event: a step of this update, or anything else. */
  lemma EventKeepsOnTrack(p: Primitives, events: seq<Event>, k: nat, id: nat, scope: Scope, hash: string,
          r: ActionResult)
    requires Lawful(p) && NoCollisions(p, events) && k < |events| && NoFaults(events, id)
    requires id in At(p, events, k).sessions && Recordable(p, At(p, events, k).store, scope, hash, r)
    requires OnTrack(p, At(p, events, k).store, scope, hash, r, At(p, events, k).sessions[id].pc)
    ensures id in At(p, events, k + 1).sessions
    ensures OnTrack(p, At(p, events, k + 1).store, scope, hash, r, At(p, events, k + 1).sessions[id].pc)
  {
    hide Start, OnTrack, Recordable, Step;
    RequestsStay(p, events, k, k + 1, id);
    SessionNext(p, events, k, id);
    InvAt(p, events, k);
    ContentIsStable(p, events, k, k + 1);
    var before, after := At(p, events, k), At(p, events, k + 1);
    hide At, Extends, StoreOk, CasContents, Established, CollisionFree;
    if events[k].Advance? && events[k].id == id {
      StaysOnTrack(p, before.store, scope, hash, r, before.sessions[id].pc);
    } else {
      OnTrackGrows(p, before.store, after.store, scope, hash, r, before.sessions[id].pc);
    }
  }

  lemma {:induction false} UpdatesStayOnTrack(p: Primitives, events: seq<Event>, i: nat, j: nat, id: nat, scope: Scope,
          hash: string, r: ActionResult)
    requires Lawful(p) && NoCollisions(p, events) && i <= j <= |events| && NoFaults(events, id)
    requires id !in At(p, events, i).sessions && Recordable(p, At(p, events, i).store, scope, hash, r)
    requires id in At(p, events, j).sessions && AsksToRecord(At(p, events, j).sessions[id].request, scope, hash, r)
    ensures OnTrack(p, At(p, events, j).store, scope, hash, r, At(p, events, j).sessions[id].pc)
    decreases j
  {
    hide Start, OnTrack, Recordable, Step, AsksToRecord, At, CollisionFree, Extends;
    if i == j {
    } else {
      SessionNext(p, events, j - 1, id);
      if id in At(p, events, j - 1).sessions {
        RequestsStay(p, events, j - 1, j, id);
        UpdatesStayOnTrack(p, events, i, j - 1, id, scope, hash, r);
        ContentIsStable(p, events, i, j - 1);
        RecordableGrows(p, At(p, events, i).store, At(p, events, j - 1).store, scope, hash, r);
        EventKeepsOnTrack(p, events, j - 1, id, scope, hash, r);
      } else {
        UpdateStarts(p, At(p, events, j).store, At(p, events, j).sessions[id].request, scope, hash, r);
      }
    }
  }

  /** Under every interleaving, a finished update that met no storage fault succeeded if its result
      was recordable at some instant before the call arrived, whatever other calls did since; and
      if it succeeded, its result is recordable from then on. So a refusal means that something
      was missing, or too large, at every instant up to the call's arrival. */
  lemma UpdatesFollowTheStore(p: Primitives, events: seq<Event>, j: nat, id: nat, scope: Scope, hash: string,
          r: ActionResult)
    requires Lawful(p) && NoCollisions(p, events) && j <= |events| && NoFaults(events, id)
    requires id in At(p, events, j).sessions && AsksToRecord(At(p, events, j).sessions[id].request, scope, hash, r)
    requires At(p, events, j).sessions[id].pc.Done?
    ensures var reply := At(p, events, j).sessions[id].pc.reply;
            && (reply == Cached(r) || reply.Refused?)
            && (reply.Refused? ==>
                  forall i: nat | i <= |events| && id !in At(p, events, i).sessions ::
                    !Recordable(p, At(p, events, i).store, scope, hash, r))
            && (reply == Cached(r) ==>
                  forall i: nat | j <= i <= |events| :: Recordable(p, At(p, events, i).store, scope, hash, r))
  {
    var reply := At(p, events, j).sessions[id].pc.reply;
    FaithfulAt(p, events, j);
    assert Faithful(p, At(p, events, j).store, At(p, events, j).sessions[id].request, At(p, events, j).sessions[id].pc);
    if reply.Refused? {
      forall i: nat | i <= |events| && id !in At(p, events, i).sessions
        ensures !Recordable(p, At(p, events, i).store, scope, hash, r)
      {
        StartsAfter(p, events, i, j, id);
        if Recordable(p, At(p, events, i).store, scope, hash, r) {
          UpdatesStayOnTrack(p, events, i, j, id, scope, hash, r);
        }
      }
    } else {
      ClosedIsThere(p, At(p, events, j).store, scope, r);
      forall i: nat | j <= i <= |events|
        ensures Recordable(p, At(p, events, i).store, scope, hash, r)
      {
        ContentIsStable(p, events, j, i);
        RecordableGrows(p, At(p, events, j).store, At(p, events, i).store, scope, hash, r);
      }
    }
  }
}
