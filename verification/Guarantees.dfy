/** What a client may rely on, over every run. */
module Guarantees {
  import opened Wrappers
  import opened Messages
  import opened Primitives
  import opened BlobStore
  import opened BlobCodec
  import opened ByteStreams
  import opened Calls
  import opened Server
  import opened Invariant
  import opened Runs
  import opened Sessions
  import opened Steps
  import Digests
  import Uploads
  import ResourceNames

  predicate NoFaults(events: seq<Event>, id: nat) {
    forall i | 0 <= i < |events| :: events[i] != Advance(id, true)
  }

  /** The step a call makes at an instant, and that every other call leaves it alone. */
  lemma SessionNext(p: Primitives, events: seq<Event>, j: nat, id: nat)
    requires j < |events| && id in At(p, events, j + 1).sessions
    ensures var before, after := At(p, events, j), At(p, events, j + 1);
            if id !in before.sessions then
              && events[j] == Begin(id, after.sessions[id].request)
              && after.sessions[id].pc == Start(p, after.sessions[id].request) && after.store == before.store
            else if events[j].Advance? && events[j].id == id then
              && after.sessions[id].request == before.sessions[id].request
              && (after.sessions[id].pc, after.store) == Step(p, before.sessions[id].pc, before.store, events[j].fault)
            else after.sessions[id] == before.sessions[id]
  {
    AtNext(p, events, j);
    hide Start, Step, CasContents;
  }

  // ----- Missing blobs -----------------------------------------------------

  /** The elements whose mask is set, in order. */
  function Picked(digests: seq<Digest>, mask: seq<bool>): seq<Digest>
    requires |mask| <= |digests|
  {
    if mask == [] then []
    else
      var last := |mask| - 1;
      Picked(digests, mask[..last]) + (if mask[last] then [digests[last]] else [])
  }

  /** At some instant of the call's life so far the key was absent. */
  ghost predicate WasAbsent(p: Primitives, events: seq<Event>, j: nat, id: nat, key: BlobKey)
    requires j <= |events|
  {
    exists k: nat | k <= j :: id in At(p, events, k).sessions && key !in At(p, events, k).store
  }

  /** A choice of digests, each reported one having been absent and each omitted one present. */
  ghost predicate Explains(p: Primitives, events: seq<Event>, j: nat, id: nat, scope: Scope, digests: seq<Digest>,
          mask: seq<bool>)
    requires j <= |events| && |mask| <= |digests|
  {
    forall i | 0 <= i < |mask| ::
      var key := scope.CasKey(digests[i].hash);
      if mask[i] then WasAbsent(p, events, j, id, key) else key in At(p, events, j).store
  }

  ghost predicate FoundSoFar(p: Primitives, events: seq<Event>, j: nat, id: nat, scope: Scope, digests: seq<Digest>,
          next: nat, missing: seq<Digest>)
    requires j <= |events|
  {
    exists mask: seq<bool> ::
      && |mask| == next <= |digests| && missing == Picked(digests, mask)
      && Explains(p, events, j, id, scope, digests, mask)
  }

  lemma FoundSoFarLasts(p: Primitives, events: seq<Event>, j: nat, id: nat, scope: Scope, digests: seq<Digest>,
          next: nat, missing: seq<Digest>)
    requires j < |events| && FoundSoFar(p, events, j, id, scope, digests, next, missing)
    ensures FoundSoFar(p, events, j + 1, id, scope, digests, next, missing)
  {
    KeysStay(p, events, j, j + 1);
    var mask: seq<bool> :|
      && |mask| == next <= |digests| && missing == Picked(digests, mask)
      && Explains(p, events, j, id, scope, digests, mask);
    hide At;
    assert Explains(p, events, j + 1, id, scope, digests, mask);
  }

  lemma FoundOneMore(p: Primitives, events: seq<Event>, j: nat, id: nat, scope: Scope, digests: seq<Digest>,
          next: nat, missing: seq<Digest>)
    requires j <= |events| && next < |digests| && id in At(p, events, j).sessions
    requires FoundSoFar(p, events, j, id, scope, digests, next, missing)
    ensures var present := scope.CasKey(digests[next].hash) in At(p, events, j).store;
            FoundSoFar(p, events, j, id, scope, digests, next + 1,
                       if present then missing else missing + [digests[next]])
  {
    hide At;
    var present := scope.CasKey(digests[next].hash) in At(p, events, j).store;
    var mask: seq<bool> :|
      && |mask| == next <= |digests| && missing == Picked(digests, mask)
      && Explains(p, events, j, id, scope, digests, mask);
    var longer := mask + [!present];
    assert longer[..next] == mask;
    assert Explains(p, events, j, id, scope, digests, longer);
  }

  /** A call's standing, in terms of what it has found so far. */
  ghost predicate FindingSoundly(p: Primitives, events: seq<Event>, j: nat, id: nat, request: Request, pc: Pc)
    requires j <= |events|
  {
    request.FindMissing? ==>
      match pc
      case Finding(scope, digests, next, missing) =>
        && Asked(scope, request.instance, request.digestFunction) && digests == request.digests
        && FoundSoFar(p, events, j, id, scope, digests, next, missing)
      case Done(Missing(missing)) =>
        && request.digestFunction in {0, 1}
        && FoundSoFar(p, events, j, id, Scope(request.instance, Sha256), request.digests, |request.digests|, missing)
      case Done(Refused(_)) => true
      case _ => false
  }

  lemma FindingLasts(p: Primitives, events: seq<Event>, j: nat, id: nat, request: Request, pc: Pc)
    requires j < |events| && FindingSoundly(p, events, j, id, request, pc)
    ensures FindingSoundly(p, events, j + 1, id, request, pc)
  {
    hide FoundSoFar;
    match pc
    case Finding(scope, digests, next, missing) =>
      if request.FindMissing? {
        FoundSoFarLasts(p, events, j, id, scope, digests, next, missing);
      }
    case Done(Missing(missing)) =>
      if request.FindMissing? {
        FoundSoFarLasts(p, events, j, id,
                        Scope(request.instance, Sha256),
                        request.digests, |request.digests|, missing);
      }
    case _ =>
  }

  lemma FindingAdvances(p: Primitives, events: seq<Event>, j: nat, id: nat, request: Request, pc: Pc, fault: bool)
    requires j <= |events| && id in At(p, events, j).sessions && FindingSoundly(p, events, j, id, request, pc)
    ensures FindingSoundly(p, events, j, id, request, Step(p, pc, At(p, events, j).store, fault).0)
  {
    hide FoundSoFar, At, Step;
    var store := At(p, events, j).store;
    match pc
    case Finding(scope, digests, next, missing) =>
      FindingStep(p, scope, digests, next, missing, store, fault);
      if request.FindMissing? {
        if next < |digests| {
          FoundOneMore(p, events, j, id, scope, digests, next, missing);
        } else {
          FoundSoFarBound(p, events, j, id, scope, digests, next, missing);
        }
      }
    case Done(_) => DoneStep(p, pc, store, fault);
    case _ =>
  }

  lemma FoundSoFarBound(p: Primitives, events: seq<Event>, j: nat, id: nat, scope: Scope, digests: seq<Digest>,
          next: nat, missing: seq<Digest>)
    requires j <= |events| && FoundSoFar(p, events, j, id, scope, digests, next, missing)
    ensures next <= |digests|
  {
    hide At, Explains;
  }

  lemma FindingStarts(p: Primitives, events: seq<Event>, j: nat, id: nat, request: Request)
    requires j <= |events|
    ensures FindingSoundly(p, events, j, id, request, Start(p, request))
  {
    if request.FindMissing? && Start(p, request).Finding? {
      var scope := Start(p, request).scope;
      assert Picked(request.digests, []) == [];
      assert Explains(p, events, j, id, scope, request.digests, []);
    }
    hide Explains;
  }

  lemma {:induction false} FindsSoundly(p: Primitives, events: seq<Event>, j: nat, id: nat)
    requires j <= |events| && id in At(p, events, j).sessions
    ensures FindingSoundly(p, events, j, id, At(p, events, j).sessions[id].request, At(p, events, j).sessions[id].pc)
    decreases j
  {
    assert events[..0] == [];
    if j == 0 {
    } else {
      SessionNext(p, events, j - 1, id);
      hide FindingSoundly, Step, Start;
      if id in At(p, events, j - 1).sessions {
        var Session(request, pc) := At(p, events, j - 1).sessions[id];
        hide At;
        FindsSoundly(p, events, j - 1, id);
        FindingLasts(p, events, j - 1, id, request, pc);
        if events[j - 1].Advance? && events[j - 1].id == id {
          FindingAdvances(p, events, j - 1, id, request, pc, events[j - 1].fault);
          FindingLasts(p, events, j - 1, id, request, At(p, events, j).sessions[id].pc);
        }
      } else {
        FindingStarts(p, events, j, id, At(p, events, j).sessions[id].request);
      }
    }
  }

  /** Under any interleaving, the reply of FindMissingBlobs is an in-order selection of the
      request: each digest reported was absent at some instant of the call, and each omitted one
      is in the store now and at every later instant. */
  lemma MissingBlobsAreExplained(p: Primitives, events: seq<Event>, j: nat, id: nat, missing: seq<Digest>)
    requires j <= |events| && id in At(p, events, j).sessions
    requires At(p, events, j).sessions[id].request.FindMissing? &&
             At(p, events, j).sessions[id].pc == Done(Missing(missing))
    ensures var request := At(p, events, j).sessions[id].request;
            && request.digestFunction in {0, 1}
            && var scope := Scope(request.instance, Sha256);
            exists mask: seq<bool> ::
              && |mask| == |request.digests| && missing == Picked(request.digests, mask)
              && forall i | 0 <= i < |mask| ::
                   var key := scope.CasKey(request.digests[i].hash);
                   if mask[i] then WasAbsent(p, events, j, id, key)
                   else forall later: nat | j <= later <= |events| :: key in At(p, events, later).store
  {
    FindsSoundly(p, events, j, id);
    var request := At(p, events, j).sessions[id].request;
    var scope := Scope(request.instance, Sha256);
    var mask: seq<bool> :|
      && |mask| == |request.digests| && missing == Picked(request.digests, mask)
      && Explains(p, events, j, id, scope, request.digests, mask);
    forall later: nat | j <= later <= |events|
      ensures forall k | k in At(p, events, j).store :: k in At(p, events, later).store
    {
      KeysStay(p, events, j, later);
    }
  }

  // ----- Batch reads -------------------------------------------------------

  /** One response of a batch read: Ok only for a blob that is there, NotFound only for one that was
      absent at some instant of the call, and Internal only after a fault. */
  ghost predicate ItemExplained(p: Primitives, events: seq<Event>, j: nat, id: nat, key: BlobKey, item: ReadResponse)
    requires j <= |events|
  {
    || (item.status == Ok && key in At(p, events, j).store)
    || (item.status == NotFound && WasAbsent(p, events, j, id, key))
    || (item.status == Internal && Faulted(events, j, id))
  }

  predicate Faulted(events: seq<Event>, j: nat, id: nat)
    requires j <= |events|
  {
    exists k | 0 <= k < j :: events[k] == Advance(id, true)
  }

  ghost predicate ItemsExplained(p: Primitives, events: seq<Event>, j: nat, id: nat, scope: Scope, digests: seq<Digest>,
          blobs: seq<ReadResponse>)
    requires j <= |events|
  {
    && |blobs| <= |digests|
    && forall i | 0 <= i < |blobs| ::
         blobs[i].digest == digests[i] && ItemExplained(p, events, j, id, scope.CasKey(digests[i].hash), blobs[i])
  }

  ghost predicate ReadingSoundly(p: Primitives, events: seq<Event>, j: nat, id: nat, request: Request, pc: Pc)
    requires j <= |events|
  {
    request.BatchRead? ==>
      match pc
      case Reading(scope, _, digests, next, blobs) =>
        && scope == Scope(request.instance, Sha256) && request.digestFunction in {0, 1} && digests == request.digests
        && |blobs| == next && ItemsExplained(p, events, j, id, scope, digests, blobs)
      case Done(Blobs(blobs)) =>
        && request.digestFunction in {0, 1} && |blobs| == |request.digests|
        && ItemsExplained(p, events, j, id, Scope(request.instance, Sha256), request.digests, blobs)
      case Done(Refused(code)) => code == InvalidArgument && request.digestFunction !in {0, 1}
      case _ => false
  }

  lemma ItemsExplainedLonger(p: Primitives, events: seq<Event>, j: nat, id: nat, scope: Scope, digests: seq<Digest>,
          blobs: seq<ReadResponse>)
    requires j < |events| && ItemsExplained(p, events, j, id, scope, digests, blobs)
    ensures ItemsExplained(p, events, j + 1, id, scope, digests, blobs)
  {
    KeysStay(p, events, j, j + 1);
    hide At;
  }

  lemma ReadingLasts(p: Primitives, events: seq<Event>, j: nat, id: nat, request: Request, pc: Pc)
    requires j < |events| && ReadingSoundly(p, events, j, id, request, pc)
    ensures ReadingSoundly(p, events, j + 1, id, request, pc)
  {
    hide ItemsExplained;
    if request.BatchRead? {
      match pc
      case Reading(scope, _, digests, _, blobs) => ItemsExplainedLonger(p, events, j, id, scope, digests, blobs);
      case Done(Blobs(blobs)) =>
        ItemsExplainedLonger(p, events, j, id, Scope(request.instance, Sha256), request.digests, blobs);
      case _ =>
    }
  }

  lemma ItemIsExplained(p: Primitives, events: seq<Event>, k: nat, id: nat, acceptable: seq<StorageEncoding>,
          digest: Digest, key: BlobKey, fault: bool)
    requires Lawful(p) && k < |events| && events[k] == Advance(id, fault) && id in At(p, events, k).sessions
    requires key.kind == ContentAddressableStorage && KeysLast(p, events, k)
    ensures ItemExplained(p, events, k + 1, id, key,
                          ReadItem(p, acceptable, digest, ReadAnswer(At(p, events, k).store, key, fault)))
  {
    RunIsCasSound(p, events[..k]);
    assert key in At(p, events, k).store ==> CasEntry(p, key, At(p, events, k).store[key]);
    ReadItemAnswers(p, acceptable, digest, At(p, events, k).store, key, fault);
    hide At, ReadItem, CasEntry;
  }

  predicate KeysLast(p: Primitives, events: seq<Event>, k: nat)
    requires k < |events|
  {
    forall key | key in At(p, events, k).store :: key in At(p, events, k + 1).store
  }

  lemma ReadingAdvances(p: Primitives, events: seq<Event>, k: nat, id: nat, request: Request, pc: Pc)
    requires Lawful(p) && k < |events| && events[k].Advance? && events[k].id == id && id in At(p, events, k).sessions
    requires ReadingSoundly(p, events, k, id, request, pc)
    ensures ReadingSoundly(p, events, k + 1, id, request, Step(p, pc, At(p, events, k).store, events[k].fault).0)
  {
    var store, fault := At(p, events, k).store, events[k].fault;
    ReadingLasts(p, events, k, id, request, pc);
    KeysStay(p, events, k, k + 1);
    hide At, Step, ReadItem, ItemExplained, ReadAnswer;
    match pc
    case Reading(scope, acceptable, digests, next, blobs) =>
      ReadingStep(p, scope, acceptable, digests, next, blobs, store, fault);
      if request.BatchRead? && next < |digests| {
        var key := scope.CasKey(digests[next].hash);
        ItemIsExplained(p, events, k, id, acceptable, digests[next], key, fault);
        assert ReadItem(p, acceptable, digests[next], ReadAnswer(store, key, fault)).digest == digests[next] by {
          ReadItemAnswers(p, acceptable, digests[next], store, key, fault);
        }
      }
    case Done(_) => DoneStep(p, pc, store, fault);
    case _ =>
  }

  lemma {:induction false} ReadsSoundly(p: Primitives, events: seq<Event>, j: nat, id: nat)
    requires Lawful(p) && j <= |events| && id in At(p, events, j).sessions
    ensures ReadingSoundly(p, events, j, id, At(p, events, j).sessions[id].request, At(p, events, j).sessions[id].pc)
    decreases j
  {
    assert events[..0] == [];
    if j == 0 {
    } else {
      SessionNext(p, events, j - 1, id);
      hide ReadingSoundly, Step, Start;
      if id in At(p, events, j - 1).sessions {
        var Session(request, pc) := At(p, events, j - 1).sessions[id];
        hide At;
        ReadsSoundly(p, events, j - 1, id);
        if events[j - 1].Advance? && events[j - 1].id == id {
          ReadingAdvances(p, events, j - 1, id, request, pc);
        } else {
          ReadingLasts(p, events, j - 1, id, request, pc);
        }
      } else {
        ReadingStarts(p, events, j, id, At(p, events, j).sessions[id].request);
      }
    }
  }

  lemma ReadingStarts(p: Primitives, events: seq<Event>, j: nat, id: nat, request: Request)
    requires j <= |events|
    ensures ReadingSoundly(p, events, j, id, request, Start(p, request))
  {
    hide At, ItemExplained;
  }

  /** Under any interleaving, and whatever hashes collide, a batch read answers every digest in
      order: Ok for a blob that is in the store now, NotFound only if it was absent at some instant
      of the call, Internal only if the call met a fault, and nothing else. It is refused only for
      its digest function. */
  lemma ReadItemsAreExplained(p: Primitives, events: seq<Event>, j: nat, id: nat)
    requires Lawful(p) && j <= |events| && id in At(p, events, j).sessions
    requires At(p, events, j).sessions[id].request.BatchRead? && At(p, events, j).sessions[id].pc.Done?
    ensures var Session(request, pc) := At(p, events, j).sessions[id];
            if request.digestFunction !in {0, 1} then pc.reply == Refused(InvalidArgument)
            else && pc.reply.Blobs? && |pc.reply.blobs| == |request.digests|
                 && forall i | 0 <= i < |request.digests| ::
                      var item := pc.reply.blobs[i];
                      var key := Scope(request.instance, Sha256).CasKey(request.digests[i].hash);
                      && item.digest == request.digests[i]
                      && (|| (item.status == Ok && key in At(p, events, j).store)
                          || (item.status == NotFound && WasAbsent(p, events, j, id, key))
                          || (item.status == Internal && Faulted(events, j, id)))
  {
    ReadsSoundly(p, events, j, id);
    hide At, WasAbsent, Faulted;
  }

  // ----- Action results ----------------------------------------------------

  /** Event m is an update's put of this result. */
  predicate Records(p: Primitives, events: seq<Event>, m: nat, key: BlobKey, result: ActionResult)
    requires m < |events|
  {
    && events[m].Advance? && !events[m].fault
    && var s := At(p, events, m);
       && events[m].id in s.sessions
       && var pc := s.sessions[events[m].id].pc;
          && pc.Recording? && pc.scope.AcKey(pc.actionHash) == key && pc.result == result
          && NextOp(p, pc).Put?
  }

  /** Event m puts something under an action cache key. */
  predicate RecordsUnder(p: Primitives, events: seq<Event>, m: nat, key: BlobKey)
    requires m < |events|
  {
    && events[m].Advance? && !events[m].fault && events[m].id in At(p, events, m).sessions
    && var pc := At(p, events, m).sessions[events[m].id].pc;
       pc.Recording? && Records(p, events, m, key, pc.result)
  }

  /** Event m is the latest put under the key before instant k, and it put this result. */
  predicate LatestRecord(p: Primitives, events: seq<Event>, m: nat, k: nat, key: BlobKey, result: ActionResult)
    requires m < k <= |events|
  {
    Records(p, events, m, key, result) && forall n | m < n < k :: !RecordsUnder(p, events, n, key)
  }

  lemma RecordedMeans(p: Primitives, pc: Pc)
    requires Lawful(p) && pc.Recording?
    ensures var op := NextOp(p, pc);
            op.Put? ==> op.key == pc.scope.AcKey(pc.actionHash) && ResultOf(p, op.blob) == Some(pc.result)
  {
    var bytes := p.encodeResult(pc.result);
    TranscodeCanonical(p, bytes, Identity, Zstd);
    CanonicalContent(p, bytes, Zstd);
    hide Canonical, ContentOf, AdmitItem;
  }

  lemma ResultChangesOnlyByRecord(p: Primitives, events: seq<Event>, k: nat, key: BlobKey)
    requires Lawful(p) && k < |events| && key.kind == ActionCache
    ensures var before, after := At(p, events, k).store, At(p, events, k + 1).store;
            if RecordsUnder(p, events, k, key)
            then key in after && ResultOf(p, after[key]).Some? &&
                 Records(p, events, k, key, ResultOf(p, after[key]).value)
            else (key in before <==> key in after) && (key in before ==> after[key] == before[key])
  {
    AtNext(p, events, k);
    RunIsCasSound(p, events[..k]);
    if events[k].Advance? && events[k].id in At(p, events, k).sessions {
      var pc := At(p, events, k).sessions[events[k].id].pc;
      hide At, CasContents, ResultOf, NextOp, CasEntry, Resume;
      CasPutsAreSound(p, pc);
      if pc.Recording? {
        RecordedMeans(p, pc);
      }
    }
  }

  /** Whatever an action cache entry records was put there by an update; the latest one counts. */
  lemma {:induction false} EntriesComeFromUpdates(p: Primitives, events: seq<Event>, k: nat,
          key: BlobKey) returns (m: nat)
    requires Lawful(p) && k <= |events| && key.kind == ActionCache && key in At(p, events, k).store
    ensures ResultOf(p, At(p, events, k).store[key]).Some?
    ensures m < k && LatestRecord(p, events, m, k, key, ResultOf(p, At(p, events, k).store[key]).value)
    decreases k
  {
    assert events[..0] == [];
    if k == 0 {
    } else {
      ResultChangesOnlyByRecord(p, events, k - 1, key);
      hide At, Records, RecordsUnder, ResultOf;
      if RecordsUnder(p, events, k - 1, key) {
        m := k - 1;
      } else {
        m := EntriesComeFromUpdates(p, events, k - 1, key);
      }
    }
  }

  /** The result a get has loaded and, so far, validated. */
  function Carried(pc: Pc): Option<ActionResult> {
    match pc
    case CollectingTrees(job, _, _) => if job.update then None else Some(job.result)
    case CheckingArtifacts(job, _, _) => if job.update then None else Some(job.result)
    case Done(Cached(result)) => Some(result)
    case _ => None
  }

  predicate IsLoading(pc: Pc, key: BlobKey) {
    pc.LoadingResult? && pc.scope.AcKey(pc.actionHash) == key
  }

  lemma LoadingStep(p: Primitives, store: Store, scope: Scope, hash: string)
    requires Lawful(p) && StoreOk(p, store) && scope.AcKey(hash) in store
    ensures var next := Step(p, LoadingResult(scope, hash), store, false).0;
            Carried(next).Some? && Carried(next) == ResultOf(p, store[scope.AcKey(hash)])
  {
    var key := scope.AcKey(hash);
    hide Step, StoreOk, Closed, ContentOf, IntoIdentityData, ActionReady, Canonical, BeginValidation, Established;
    LoadingResultStep(p, scope, hash, store, false);
    EntryDecodes(p, store, key);
    StoreOkEntry(p, store, key);
    ValidationBegins(p, store, Job(scope, hash, ResultOf(p, store[key]).value, false));
  }

  /** A step of a get that meets no fault: it never fails once an entry is there, and keeps
      the result it loaded. */
  lemma GetMoves(p: Primitives, store: Store, key: BlobKey, pc: Pc)
    requires Lawful(p) && StoreOk(p, store) && Established(p, store, pc) && key in store
    requires IsLoading(pc, key) || Carried(pc).Some?
    requires Extends(p, store, Step(p, pc, store, false).1)
    ensures var next := Step(p, pc, store, false).0;
            Carried(next).Some? && Carried(next) == if IsLoading(pc, key) then ResultOf(p, store[key]) else Carried(pc)
  {
    hide StoreOk, Established, Step, Extends, ResultOf, Carried;
    if IsLoading(pc, key) {
      LoadingStep(p, store, pc.scope, pc.actionHash);
    } else {
      CarriedMoves(p, store, pc);
    }
  }

  lemma CarriedMoves(p: Primitives, store: Store, pc: Pc)
    requires Lawful(p) && StoreOk(p, store) && Established(p, store, pc) && Carried(pc).Some?
    requires Extends(p, store, Step(p, pc, store, false).1)
    ensures Carried(Step(p, pc, store, false).0) == Carried(pc)
  {
    hide StoreOk, Established, Step, Extends;
    match pc
    case CollectingTrees(job, next, digests) => CollectingEstablishes(p, store, job, next, digests, false);
    case CheckingArtifacts(job, next, digests) => CheckingEstablishes(p, store, job, next, digests, false);
    case Done(_) => DoneStep(p, pc, store, false);
    case _ =>
  }

  /** A well-formed get, and the key of the entry it asks for. */
  predicate AsksFor(request: Request, key: BlobKey) {
    && request.GetResult? && request.actionDigest.Some? && request.digestFunction in {0, 1}
    && Scope(request.instance, Sha256).AcKey(request.actionDigest.value.hash) == key
  }

  lemma GetStarts(p: Primitives, request: Request, key: BlobKey)
    requires AsksFor(request, key)
    ensures IsLoading(Start(p, request), key)
  {
  }

  lemma AbsentLoadingStep(p: Primitives, store: Store, scope: Scope, hash: string)
    requires scope.AcKey(hash) !in store
    ensures Step(p, LoadingResult(scope, hash), store, false).0 == Done(Refused(NotFound))
  {
    LoadingResultStep(p, scope, hash, store, false);
  }

  ghost predicate GetStands(p: Primitives, events: seq<Event>, j: nat, id: nat, key: BlobKey, pc: Pc)
    requires j <= |events|
  {
    IsLoading(pc, key) || Carried(pc).Some? || (pc == Done(Refused(NotFound)) && WasAbsent(p, events, j, id, key))
  }

  lemma GetStandsLonger(p: Primitives, events: seq<Event>, j: nat, id: nat, key: BlobKey, pc: Pc)
    requires j < |events| && GetStands(p, events, j, id, key, pc)
    ensures GetStands(p, events, j + 1, id, key, pc)
  {
    hide At;
  }

  lemma GetStandsOn(p: Primitives, events: seq<Event>, j: nat, id: nat, key: BlobKey, pc: Pc)
    requires Lawful(p) && j <= |events| && id in At(p, events, j).sessions && GetStands(p, events, j, id, key, pc)
    requires StoreOk(p, At(p, events, j).store) && Established(p, At(p, events, j).store, pc)
    requires Extends(p, At(p, events, j).store, Step(p, pc, At(p, events, j).store, false).1)
    ensures GetStands(p, events, j, id, key, Step(p, pc, At(p, events, j).store, false).0)
  {
    hide At, StoreOk, Established, Extends, Step, Carried;
    var store := At(p, events, j).store;
    if IsLoading(pc, key) && key !in store {
      AbsentLoadingStep(p, store, pc.scope, pc.actionHash);
    } else if IsLoading(pc, key) {
      GetMoves(p, store, key, pc);
    } else if Carried(pc).Some? {
      CarriedMoves(p, store, pc);
    } else {
      DoneStep(p, pc, store, false);
    }
  }

  /** One event: a step of this get, or anything else. */
  lemma EventKeepsStanding(p: Primitives, events: seq<Event>, k: nat, id: nat, key: BlobKey)
    requires Lawful(p) && NoCollisions(p, events) && k < |events| && NoFaults(events, id)
    requires id in At(p, events, k).sessions && GetStands(p, events, k, id, key, At(p, events, k).sessions[id].pc)
    ensures id in At(p, events, k + 1).sessions
    ensures GetStands(p, events, k + 1, id, key, At(p, events, k + 1).sessions[id].pc)
  {
    hide Start, Step, GetStands;
    RequestsStay(p, events, k, k + 1, id);
    SessionNext(p, events, k, id);
    InvAt(p, events, k);
    ContentIsStable(p, events, k, k + 1);
    var before, after := At(p, events, k), At(p, events, k + 1);
    hide At, Extends, StoreOk, CasContents, Established, CollisionFree;
    if events[k].Advance? && events[k].id == id {
      GetStandsOn(p, events, k, id, key, before.sessions[id].pc);
    }
    GetStandsLonger(p, events, k, id, key, after.sessions[id].pc);
  }

  lemma {:induction false} GetsStand(p: Primitives, events: seq<Event>, j: nat, id: nat, key: BlobKey)
    requires Lawful(p) && NoCollisions(p, events) && j <= |events| && NoFaults(events, id)
    requires id in At(p, events, j).sessions && AsksFor(At(p, events, j).sessions[id].request, key)
    ensures GetStands(p, events, j, id, key, At(p, events, j).sessions[id].pc)
    decreases j
  {
    hide Start, Step, AsksFor, CollisionFree;
    assert events[..0] == [];
    if j == 0 {
    } else {
      SessionNext(p, events, j - 1, id);
      hide At;
      if id in At(p, events, j - 1).sessions {
        RequestsStay(p, events, j - 1, j, id);
        GetsStand(p, events, j - 1, id, key);
        EventKeepsStanding(p, events, j - 1, id, key);
      } else {
        GetStarts(p, At(p, events, j).sessions[id].request, key);
      }
    }
  }

  // ----- Which result a get returns ----------------------------------------

  /** Event k is the step by which this get reads the entry under the key. */
  predicate ReadsEntry(p: Primitives, events: seq<Event>, k: nat, id: nat, key: BlobKey)
    requires k < |events|
  {
    && events[k] == Advance(id, false) && id in At(p, events, k).sessions
    && IsLoading(At(p, events, k).sessions[id].pc, key)
  }

  /** Some step of the get before instant j read the entry, which recorded this result. */
  ghost predicate HasRead(p: Primitives, events: seq<Event>, j: nat, id: nat, key: BlobKey, result: ActionResult)
    requires j <= |events|
  {
    exists k: nat | k < j ::
      && ReadsEntry(p, events, k, id, key)
      && key in At(p, events, k).store && ResultOf(p, At(p, events, k).store[key]) == Some(result)
  }

  ghost predicate GetTraced(p: Primitives, events: seq<Event>, j: nat, id: nat, key: BlobKey, pc: Pc)
    requires j <= |events|
  {
    || IsLoading(pc, key)
    || (pc.Done? && pc.reply.Refused?)
    || (Carried(pc).Some? && HasRead(p, events, j, id, key, Carried(pc).value))
  }

  lemma GetTracedLonger(p: Primitives, events: seq<Event>, j: nat, id: nat, key: BlobKey, pc: Pc)
    requires j < |events| && GetTraced(p, events, j, id, key, pc)
    ensures GetTraced(p, events, j + 1, id, key, pc)
  {
    hide At, ReadsEntry, ResultOf;
  }

  /** With or without a fault, a get that carries a result keeps it or is refused. */
  lemma CarriedOrRefused(p: Primitives, store: Store, pc: Pc, fault: bool)
    requires Carried(pc).Some?
    ensures var next := Step(p, pc, store, fault).0;
            (next.Done? && next.reply.Refused?) || Carried(next) == Carried(pc)
  {
    hide Step, IntoIdentityData, TreeDigests;
    match pc
    case CollectingTrees(job, next, digests) => CollectingStep(p, job, next, digests, store, fault);
    case CheckingArtifacts(job, next, digests) => CheckingStep(p, job, next, digests, store, fault);
    case Done(_) => DoneStep(p, pc, store, fault);
  }

  lemma LoadingOrRefused(p: Primitives, store: Store, scope: Scope, hash: string, fault: bool)
    requires Lawful(p) && StoreOk(p, store)
    ensures var key, next := scope.AcKey(hash), Step(p, LoadingResult(scope, hash), store, fault).0;
            || (next.Done? && next.reply.Refused?)
            || (!fault && key in store && Carried(next).Some? && Carried(next) == ResultOf(p, store[key]))
  {
    hide Step, StoreOk, AfterResult;
    LoadingResultStep(p, scope, hash, store, fault);
    if !fault && scope.AcKey(hash) in store {
      LoadingStep(p, store, scope, hash);
    } else if !fault {
      AbsentLoadingStep(p, store, scope, hash);
    }
  }

  lemma GetTracedOn(p: Primitives, events: seq<Event>, k: nat, id: nat, key: BlobKey)
    requires Lawful(p) && k < |events| && events[k].Advance? && events[k].id == id && id in At(p, events, k).sessions
    requires StoreOk(p, At(p, events, k).store)
    requires GetTraced(p, events, k, id, key, At(p, events, k).sessions[id].pc)
    ensures var pc := At(p, events, k).sessions[id].pc;
            GetTraced(p, events, k + 1, id, key, Step(p, pc, At(p, events, k).store, events[k].fault).0)
  {
    var store, pc, fault := At(p, events, k).store, At(p, events, k).sessions[id].pc, events[k].fault;
    var next := Step(p, pc, store, fault).0;
    hide At, StoreOk, Step, ResultOf, Carried;
    if IsLoading(pc, key) {
      LoadingOrRefused(p, store, pc.scope, pc.actionHash, fault);
      if !(next.Done? && next.reply.Refused?) {
        assert ReadsEntry(p, events, k, id, key);
        assert HasRead(p, events, k + 1, id, key, Carried(next).value);
      }
    } else if Carried(pc).Some? {
      CarriedOrRefused(p, store, pc, fault);
      GetTracedLonger(p, events, k, id, key, pc);
    } else {
      DoneStep(p, pc, store, fault);
    }
  }

  lemma {:induction false} GetsAreTraced(p: Primitives, events: seq<Event>, j: nat, id: nat, key: BlobKey)
    requires Lawful(p) && NoCollisions(p, events) && j <= |events|
    requires id in At(p, events, j).sessions && AsksFor(At(p, events, j).sessions[id].request, key)
    ensures GetTraced(p, events, j, id, key, At(p, events, j).sessions[id].pc)
    decreases j
  {
    hide Start;
    assert events[..0] == [];
    if j == 0 {
    } else {
      SessionNext(p, events, j - 1, id);
      var before, after := At(p, events, j - 1), At(p, events, j);
      if id in before.sessions {
        GetsAreTraced(p, events, j - 1, id, key);
        InvAt(p, events, j - 1);
        hide At, Step, StoreOk, CasContents, GetTraced, Established;
        if events[j - 1].Advance? && events[j - 1].id == id {
          GetTracedOn(p, events, j - 1, id, key);
        } else {
          GetTracedLonger(p, events, j - 1, id, key, after.sessions[id].pc);
        }
      } else {
        hide At, Step;
        GetStarts(p, after.sessions[id].request, key);
      }
    }
  }

  /** Event k is the step by which this get reads the entry, and this result is that of the update
      whose put, event m, is the latest under the key at that step. */
  predicate ReturnsLatest(p: Primitives, events: seq<Event>, k: nat, m: nat, id: nat, key: BlobKey,
          result: ActionResult)
    requires m < k < |events|
  {
    ReadsEntry(p, events, k, id, key) && LatestRecord(p, events, m, k, key, result)
  }

  /** Whatever else goes on, and whatever faults occur: a get that answers with a result answers
      with that of the update whose put is the latest when the get reads the entry. */
  lemma GetReturnsTheLatestRecord(p: Primitives, events: seq<Event>, j: nat, get: nat, key: BlobKey)
    returns (k: nat, m: nat)
    requires Lawful(p) && NoCollisions(p, events) && j <= |events|
    requires get in At(p, events, j).sessions && AsksFor(At(p, events, j).sessions[get].request, key)
    requires At(p, events, j).sessions[get].pc.Done? && At(p, events, j).sessions[get].pc.reply.Cached?
    ensures m < k < j && ReturnsLatest(p, events, k, m, get, key, At(p, events, j).sessions[get].pc.reply.result)
  {
    GetsAreTraced(p, events, j, get, key);
    var result := At(p, events, j).sessions[get].pc.reply.result;
    hide At, LatestRecord;
    k :| && 0 <= k < j && ReadsEntry(p, events, k, get, key)
         && key in At(p, events, k).store && ResultOf(p, At(p, events, k).store[key]) == Some(result);
    m := EntriesComeFromUpdates(p, events, k, key);
  }

  /** In every run, a well-formed get that meets no storage fault ends in one of two ways: with the
      result of the update whose put is the latest when the get reads the entry, or with NotFound,
      and then there was no entry at some instant of the call. */
  lemma GetFailsOnlyWhenAbsent(p: Primitives, events: seq<Event>, j: nat, id: nat, key: BlobKey)
    requires Lawful(p) && NoCollisions(p, events) && j <= |events| && NoFaults(events, id)
    requires id in At(p, events, j).sessions && AsksFor(At(p, events, j).sessions[id].request, key)
    requires At(p, events, j).sessions[id].pc.Done?
    ensures var reply := At(p, events, j).sessions[id].pc.reply;
            if reply.Cached?
            then exists k: nat, m: nat | m < k < j :: ReturnsLatest(p, events, k, m, id, key, reply.result)
            else reply == Refused(NotFound) && WasAbsent(p, events, j, id, key)
  {
    GetsStand(p, events, j, id, key);
    if At(p, events, j).sessions[id].pc.reply.Cached? {
      var k, m := GetReturnsTheLatestRecord(p, events, j, id, key);
      assert ReturnsLatest(p, events, k, m, id, key, At(p, events, j).sessions[id].pc.reply.result);
    }
    hide At;
  }

  /** Once an update has answered, every get of the same action that starts later and meets no
      storage fault answers with a result, never an error: that of the update whose put is the
      latest when the get reads the entry, which is after the first update has answered. */
  lemma GetAfterUpdate(p: Primitives, events: seq<Event>, i: nat, update: nat, get: nat) returns (k: nat, m: nat)
    requires Lawful(p) && NoCollisions(p, events) && i <= |events|
    requires update in At(p, events, i).sessions
    requires At(p, events, i).sessions[update].request.UpdateResult?
    requires At(p, events, i).sessions[update].pc.Done? && At(p, events, i).sessions[update].pc.reply.Cached?
    requires get !in At(p, events, i).sessions && get in Run(p, events).sessions && NoFaults(events, get)
    requires var asked, done := Run(p, events).sessions[get].request, At(p, events, i).sessions[update].request;
             && asked.GetResult? && asked.instance == done.instance
             && asked.actionDigest.Some? && done.actionDigest.Some?
             && asked.actionDigest.value.hash == done.actionDigest.value.hash
             && asked.digestFunction in {0, 1}
    requires Run(p, events).sessions[get].pc.Done?
    ensures var reply := Run(p, events).sessions[get].pc.reply;
            var asked := Run(p, events).sessions[get].request;
            var key := Scope(asked.instance, Sha256).AcKey(asked.actionDigest.value.hash);
            && reply.Cached?
            && i < k < |events| && m < k && ReturnsLatest(p, events, k, m, get, key, reply.result)
  {
    AtEnd(p, events);
    FaithfulAt(p, events, i);
    var done, asked := At(p, events, i).sessions[update], Run(p, events).sessions[get];
    var key := Scope(asked.request.instance, Sha256).AcKey(asked.request.actionDigest.value.hash);
    assert Faithful(p, At(p, events, i).store, done.request, done.pc);
    assert key in At(p, events, i).store;
    hide Run, At, Faithful, ReturnsLatest;
    GetFailsOnlyWhenAbsent(p, events, |events|, get, key);
    if WasAbsent(p, events, |events|, get, key) {
      var n: nat :| n <= |events| && get in At(p, events, n).sessions && key !in At(p, events, n).store;
      StartsAfter(p, events, i, n, get);
      KeysStay(p, events, i, n);
    }
    k, m := GetReturnsTheLatestRecord(p, events, |events|, get, key);
    assert get in At(p, events, k).sessions by { ReadersAreThere(p, events, k, m, get, key, asked.pc.reply.result); }
    StartsAfter(p, events, i, k, get);
  }

  lemma ReadersAreThere(p: Primitives, events: seq<Event>, k: nat, m: nat, id: nat, key: BlobKey, result: ActionResult)
    requires m < k < |events| && ReturnsLatest(p, events, k, m, id, key, result)
    ensures id in At(p, events, k).sessions
  {
    hide At;
  }

  /** A call that is not there at instant i is there at later instants only. */
  lemma StartsAfter(p: Primitives, events: seq<Event>, i: nat, n: nat, id: nat)
    requires i <= |events| && n <= |events| && id !in At(p, events, i).sessions && id in At(p, events, n).sessions
    ensures i < n
  {
    hide At;
    if n <= i {
      RequestsStay(p, events, n, i, id);
    }
  }

  // ----- Reading back ------------------------------------------------------

  /** In every reachable state, collisions or not, a stream read that meets no fault is NotFound when
      its blob is absent or has another size, and else delivers the blob's content: the branches for
      undecodable and invalid stored blobs, and with them Internal, cannot be taken. */
  lemma StoredBlobsNeverFail(p: Primitives, events: seq<Event>, name: string, offset: Int64, limit: Int64)
    requires Lawful(p) && PlanRead(name, offset, limit).Success?
    ensures var plan, store := PlanRead(name, offset, limit).value, Run(p, events).store;
            var next := Step(p, Fetching(plan), store, false).0;
            && next != Done(Refused(Internal))
            && next == if plan.key !in store || |ContentOf(p, store[plan.key])| != plan.resource.expectedSize
                       then Done(Refused(NotFound))
                       else Done(DeliveryReply(p, ContentOf(p, store[plan.key]), plan))
  {
    var plan := PlanRead(name, offset, limit).value;
    var store := Run(p, events).store;
    RunIsCasSound(p, events);
    PlanKeys(name, offset, limit);
    hide Run, PlanRead, Step, Deliver, CasEntry;
    FetchingStep(p, plan, store, false);
    if plan.key in store {
      CasEntryDecodes(p, plan.key, store[plan.key]);
      ReadReplyOfEntry(p, plan, store[plan.key]);
      ReadDeliversTheSlice(p, ContentOf(p, store[plan.key]), plan.encoding, offset, limit);
    }
  }

  /** Nor does a batch read, whatever the client accepts: an entry that is there is answered Ok. */
  lemma StoredItemsNeverFail(p: Primitives, events: seq<Event>, acceptable: seq<StorageEncoding>, digest: Digest,
          key: BlobKey)
    requires Lawful(p)
    requires key in Run(p, events).store && key.kind == ContentAddressableStorage
    ensures ReadItem(p, acceptable, digest, Found(Some(Run(p, events).store[key]))).status == Ok
  {
    RunIsCasSound(p, events);
    ReadItemOfEntry(p, acceptable, digest, key, Run(p, events).store[key]);
  }

  /** An uncompressed item (0) conveys its data, a zstd item (1) what its data decompresses to. */
  predicate ItemConveys(p: Primitives, item: UploadItem, content: Bytes) {
    || (item.compressor == 0 && content == item.data)
    || (item.compressor == 1 && FullDecode(p, item.data) == Some(content))
  }

  /** An acknowledged stream write, its key and the content it uploaded. */
  predicate StreamUploaded(p: Primitives, stream: WriteStream, key: BlobKey, content: Bytes) {
    && Acceptable(p, stream)
    && var resource := ResourceNames.Parse(stream.chunks[0].resourceName).value;
       && key == BlobKey(resource.instance, Sha256, resource.hash, ContentAddressableStorage)
       && Conveyed(p, resource.compression, Payload(stream.chunks, FirstFinish(stream.chunks) + 1)) == Some(content)
  }

  /** An item of a batch update answered Ok, its key and the content it uploaded. */
  predicate ItemUploaded(p: Primitives, instance: string, items: seq<UploadItem>, responses: seq<UploadResponse>,
          key: BlobKey, content: Bytes) {
    exists i | 0 <= i < |responses| && i < |items| ::
      && responses[i].status == Ok && items[i].digest.Some?
      && key == Scope(instance, Sha256).CasKey(items[i].digest.value.hash)
      && ItemConveys(p, items[i], content)
  }

  /** A finished upload, its key and the content it uploaded. */
  predicate UploadedBy(p: Primitives, session: Session, key: BlobKey, content: Bytes) {
    && session.pc.Done?
    && if session.request.Write?
       then session.pc.reply.Committed? && StreamUploaded(p, session.request.stream, key, content)
       else
         && session.request.BatchUpdate? && session.pc.reply.Updated?
         && ItemUploaded(p, session.request.instance, session.request.items, session.pc.reply.responses, key, content)
  }

  /** A finished upload's content is in the store. */
  lemma UploadsAreHeld(p: Primitives, store: Store, session: Session, key: BlobKey, content: Bytes)
    requires Lawful(p) && Faithful(p, store, session.request, session.pc) && UploadedBy(p, session, key, content)
    ensures Holds(p, store, key, content) && key.kind == ContentAddressableStorage
  {
    hide Faithful, StreamUploaded, ItemUploaded, Holds;
    if session.request.Write? {
      AcknowledgedWrites(p, store, session.request, session.pc);
      StreamsCommit(p, session.request.stream, key, content);
    } else {
      AcknowledgedUpdates(p, store, session.request, session.pc);
      ItemsAreHeld(p, store, session.request.instance, session.request.items, session.pc.reply.responses, key, content);
    }
  }

  lemma AcknowledgedWrites(p: Primitives, store: Store, request: Request, pc: Pc)
    requires Faithful(p, store, request, pc) && request.Write? && pc.Done? && pc.reply.Committed?
    ensures var outcome := WriteOutcome(p, request.stream);
            outcome.Success? && Holds(p, store, outcome.value.key, ContentOf(p, outcome.value.blob))
  {
    hide WriteOutcome, ContentOf, Mirrored, Kept, PlanRead, Closed;
  }

  lemma AcknowledgedUpdates(p: Primitives, store: Store, request: Request, pc: Pc)
    requires Faithful(p, store, request, pc) && request.BatchUpdate? && pc.Done? && pc.reply.Updated?
    ensures Kept(p, store, Scope(request.instance, Sha256), request.items, pc.reply.responses)
  {
    hide WriteOutcome, ContentOf, Mirrored, Kept, PlanRead, Closed;
  }

  lemma StreamsCommit(p: Primitives, stream: WriteStream, key: BlobKey, content: Bytes)
    requires Lawful(p) && StreamUploaded(p, stream, key, content)
    ensures var outcome := WriteOutcome(p, stream);
            && outcome.Success? && outcome.value.key == key && ContentOf(p, outcome.value.blob) == content
            && key.kind == ContentAddressableStorage
  {
    hide Acceptable, WriteOutcome, RefusalCode, ResourceNames.Parse, Conveyed, Canonical, ContentOf,
         FirstFinish, Payload;
    WriteAcceptedExactlyWhenAcceptable(p, stream);
    CanonicalContent(p, content, Zstd);
  }

  lemma ItemsAreHeld(p: Primitives, store: Store, instance: string, items: seq<UploadItem>,
          responses: seq<UploadResponse>, key: BlobKey, content: Bytes)
    requires Lawful(p) && Kept(p, store, Scope(instance, Sha256), items, responses)
    requires ItemUploaded(p, instance, items, responses, key, content)
    ensures Holds(p, store, key, content) && key.kind == ContentAddressableStorage
  {
    CanonicalContent(p, content, Zstd);
    hide Canonical, ContentOf, AdmitItem, ItemConveys;
    var scope := Scope(instance, Sha256);
    var i :| 0 <= i < |responses| && i < |items|
          && responses[i].status == Ok && items[i].digest.Some?
          && key == scope.CasKey(items[i].digest.value.hash)
          && ItemConveys(p, items[i], content);
    ItemsAreAdmitted(p, scope, items[i], content);
  }

  lemma ItemsAreAdmitted(p: Primitives, scope: Scope, item: UploadItem, content: Bytes)
    requires Lawful(p) && item.digest.Some? && ItemConveys(p, item, content)
    ensures AdmitItem(p, scope, item).Success? ==> AdmitItem(p, scope, item).value == Canonical(p, content, Zstd)
  {
    var digest := item.digest.value;
    Uploads.AdmittedExactlyWhenGenuine(p, scope.algorithm, digest.hash, digest.sizeBytes, item.data,
                                       EncodingFromProto(item.compressor).value);
    hide Uploads.Admit, Uploads.Genuine, Canonical;
  }

  function DeliveryReply(p: Primitives, content: Bytes, plan: ReadPlan): Reply {
    match Deliver(p, content, plan.encoding, plan.offset, plan.limit)
    case Failure(code) => Refused(code)
    case Success(chunks) => Contents(chunks)
  }

  /** A stream read that starts once the store holds the content delivers it. */
  lemma {:induction false} ReadsBack(p: Primitives, events: seq<Event>, i: nat, j: nat, id: nat, plan: ReadPlan,
          content: Bytes)
    requires Lawful(p) && NoCollisions(p, events) && i <= j <= |events| && NoFaults(events, id)
    requires id !in At(p, events, i).sessions && id in At(p, events, j).sessions
    requires At(p, events, j).sessions[id].request == Read(plan.name, plan.offset, plan.limit)
    requires PlanRead(plan.name, plan.offset, plan.limit) == Success(plan)
    requires Holds(p, At(p, events, i).store, plan.key, content) && |content| == plan.resource.expectedSize
    ensures var pc := At(p, events, j).sessions[id].pc;
            pc == Fetching(plan) || pc == Done(DeliveryReply(p, content, plan))
    decreases j
  {
    hide PlanRead, At, StoreOk, Established, Step, ContentOf, CasContents, DeliveryReply, CollisionFree, Start;
    if i == j {
    } else {
      SessionNext(p, events, j - 1, id);
      if id in At(p, events, j - 1).sessions {
        ReadsBack(p, events, i, j - 1, id, plan, content);
        InvAt(p, events, j - 1);
        ContentIsStable(p, events, i, j - 1);
        PlanKeys(plan.name, plan.offset, plan.limit);
        if events[j - 1].Advance? && events[j - 1].id == id {
          ReadAdvances(p, At(p, events, j - 1).store, plan, At(p, events, j - 1).sessions[id].pc, content);
        }
      } else {
        ReadStarts(p, plan);
      }
    }
  }

  lemma ReadStarts(p: Primitives, plan: ReadPlan)
    requires PlanRead(plan.name, plan.offset, plan.limit) == Success(plan)
    ensures Start(p, Read(plan.name, plan.offset, plan.limit)) == Fetching(plan)
  {
    hide PlanRead;
  }

  lemma ReadAdvances(p: Primitives, store: Store, plan: ReadPlan, pc: Pc, content: Bytes)
    requires Lawful(p) && StoreOk(p, store)
    requires PlanRead(plan.name, plan.offset, plan.limit) == Success(plan)
    requires Holds(p, store, plan.key, content) && |content| == plan.resource.expectedSize
    requires pc == Fetching(plan) || pc == Done(DeliveryReply(p, content, plan))
    ensures Step(p, pc, store, false).0 == Done(DeliveryReply(p, content, plan))
  {
    hide StoreOk, Deliver, PlanRead, Step, ContentOf;
    if pc.Done? {
      DoneStep(p, pc, store, false);
    } else {
      PlanKeys(plan.name, plan.offset, plan.limit);
      FetchingStaysFaithful(p, store, Read(plan.name, plan.offset, plan.limit), plan, false);
    }
  }

  ghost predicate BatchReadsBack(p: Primitives, acceptable: seq<StorageEncoding>, scope: Scope, digests: seq<Digest>,
          blobs: seq<ReadResponse>, key: BlobKey, content: Bytes) {
    forall n | 0 <= n < |blobs| && n < |digests| ::
      scope.CasKey(digests[n].hash) == key ==> blobs[n] == OkItem(p, acceptable, digests[n], content)
  }

  ghost predicate BatchProceeds(p: Primitives, session: Session, key: BlobKey, content: Bytes) {
    session.request.BatchRead? ==>
      var request := session.request;
      match session.pc
      case Reading(scope, acceptable, digests, next, blobs) =>
        BatchReadsBack(p, acceptable, scope, digests, blobs, key, content)
      case Done(Blobs(blobs)) =>
        BatchReadsBack(p, AcceptableEncodings(request.acceptable), Scope(request.instance, Sha256),
                       request.digests, blobs, key, content)
      case Done(Refused(_)) => request.digestFunction !in {0, 1}
      case _ => false
  }

  lemma BatchStep(p: Primitives, store: Store, request: Request, pc: Pc, key: BlobKey, content: Bytes)
    requires Lawful(p) && StoreOk(p, store) && Holds(p, store, key, content)
    requires request.BatchRead? && Faithful(p, store, request, pc) &&
             BatchProceeds(p, Session(request, pc), key, content)
    ensures BatchProceeds(p, Session(request, Step(p, pc, store, false).0), key, content)
  {
    hide Step, StoreOk, ContentOf, OkItem, Mirrored, AcceptableEncodings;
    match pc
    case Reading(scope, acceptable, digests, next, blobs) =>
      ReadingStep(p, scope, acceptable, digests, next, blobs, store, false);
      if next < |digests| {
        ReadingStaysMirrored(p, store, scope, acceptable, digests, next, blobs, false);
      }
    case Done(_) => DoneStep(p, pc, store, false);
    case _ =>
  }

  lemma BatchStarts(p: Primitives, request: Request, key: BlobKey, content: Bytes)
    requires request.BatchRead?
    ensures BatchProceeds(p, Session(request, Start(p, request)), key, content)
  {
    hide AcceptableEncodings;
  }

  lemma {:induction false} BatchesReadBack(p: Primitives, events: seq<Event>, i: nat, j: nat, id: nat, key: BlobKey,
          content: Bytes)
    requires Lawful(p) && NoCollisions(p, events) && i <= j <= |events| && NoFaults(events, id)
    requires id !in At(p, events, i).sessions && id in At(p, events, j).sessions
    requires At(p, events, j).sessions[id].request.BatchRead?
    requires key.kind == ContentAddressableStorage && Holds(p, At(p, events, i).store, key, content)
    ensures BatchProceeds(p, At(p, events, j).sessions[id], key, content)
    decreases j
  {
    hide At, StoreOk, Established, Step, Start, ContentOf, CasContents, Faithful, BatchProceeds, CollisionFree;
    if i == j {
    } else {
      SessionNext(p, events, j - 1, id);
      if id in At(p, events, j - 1).sessions {
        BatchesReadBack(p, events, i, j - 1, id, key, content);
        var session := At(p, events, j - 1).sessions[id];
        InvAt(p, events, j - 1);
        FaithfulAt(p, events, j - 1);
        ContentIsStable(p, events, i, j - 1);
        assert Faithful(p, At(p, events, j - 1).store, session.request, session.pc);
        if events[j - 1].Advance? && events[j - 1].id == id {
          BatchStep(p, At(p, events, j - 1).store, session.request, session.pc, key, content);
        }
      } else {
        BatchStarts(p, At(p, events, j).sessions[id].request, key, content);
      }
    }
  }

  /** The content a batch-read entry stands for. */
  function DecodedItem(p: Primitives, item: ReadResponse): Option<Bytes> {
    match EncodingFromProto(item.compressor)
    case None => None
    case Some(encoding) => Decoded(p, item.data, encoding)
  }

  /** The reply to a read of this content under this name: exactly the slice asked for under a
      plain name, the suffix in compressed form under a zstd name, and an error only for an offset
      or limit out of range. */
  predicate ReadsBackAs(p: Primitives, resource: ResourceNames.Resource, offset: Int64, limit: Int64, content: Bytes,
          reply: Reply) {
    if !(0 <= offset <= |content|) then reply == Refused(OutOfRange)
    else if resource.compression == ResourceNames.Plain then
      if limit < 0 then reply == Refused(InvalidArgument)
      else
        var end := if limit == 0 || offset + limit > |content| then |content| else offset + limit;
        reply.Contents? && Concat(reply.chunks) == content[offset..end]
    else reply.Contents? && FullDecode(p, Concat(reply.chunks)) == Some(content[offset..])
  }

  /** Content uploaded by either service, in either encoding, reads back the same through the
      stream service, after any steps of any calls in between, under every name that is spelled any
      way for the blob: plain, or zstd without a limit. */
  lemma UploadThenRead(p: Primitives, events: seq<Event>, i: nat, up: nat, down: nat, key: BlobKey, content: Bytes,
          resource: ResourceNames.Resource)
    requires Lawful(p) && NoCollisions(p, events) && i <= |events|
    requires up in At(p, events, i).sessions && UploadedBy(p, At(p, events, i).sessions[up], key, content)
    requires down !in At(p, events, i).sessions && down in Run(p, events).sessions && NoFaults(events, down)
    requires Run(p, events).sessions[down].request.Read? && Run(p, events).sessions[down].pc.Done?
    requires ResourceNames.Parse(Run(p, events).sessions[down].request.name) == Success(resource)
    requires && resource.uploadId.None? && resource.instance == key.instance && resource.hash == key.hash
             && resource.expectedSize == |content|
    requires || resource.compression == ResourceNames.Plain
             || (&& resource.compression == ResourceNames.Named("zstd")
                 && Run(p, events).sessions[down].request.limit == 0)
    ensures var Session(request, pc) := Run(p, events).sessions[down];
            ReadsBackAs(p, resource, request.offset, request.limit, content, pc.reply)
  {
    hide Run, At, PlanRead, UploadedBy, Faithful, Deliver, StoreOk, Established, CasContents, ResourceNames.Parse,
         CasEntry, DeliveryReply, ReadsBackAs, CollisionFree, ContentOf;
    AtEnd(p, events);
    UploadedIsHeld(p, events, i, up, key, content);
    var request := Run(p, events).sessions[down].request;
    PlannedExactlyWhen(request.name, request.offset, request.limit);
    var plan := PlanRead(request.name, request.offset, request.limit).value;
    ReadsBack(p, events, i, |events|, down, plan, content);
    DeliveredAs(p, plan, content);
  }

  lemma UploadedIsHeld(p: Primitives, events: seq<Event>, i: nat, up: nat, key: BlobKey, content: Bytes)
    requires Lawful(p) && NoCollisions(p, events) && i <= |events|
    requires up in At(p, events, i).sessions && UploadedBy(p, At(p, events, i).sessions[up], key, content)
    ensures Holds(p, At(p, events, i).store, key, content)
    ensures key == BlobKey(key.instance, Sha256, key.hash, ContentAddressableStorage)
    ensures |content| <= MAX_DECOMPRESSED_BLOB_SIZE
  {
    FaithfulAt(p, events, i);
    InvAt(p, events, i);
    var store, session := At(p, events, i).store, At(p, events, i).sessions[up];
    assert Faithful(p, store, session.request, session.pc);
    hide At, UploadedBy, Faithful, Established, CasContents;
    UploadsAreHeld(p, store, session, key, content);
    CasEntryAt(p, store, key);
  }

  lemma DeliveredAs(p: Primitives, plan: ReadPlan, content: Bytes)
    requires Lawful(p) && |content| <= MAX_DECOMPRESSED_BLOB_SIZE
    requires plan.resource.compression in {ResourceNames.Plain, ResourceNames.Named("zstd")}
    requires plan.encoding == if plan.resource.compression == ResourceNames.Plain then Identity else Zstd
    ensures ReadsBackAs(p, plan.resource, plan.offset, plan.limit, content, DeliveryReply(p, content, plan))
  {
    hide Deliver;
    ReadDeliversTheSlice(p, content, plan.encoding, plan.offset, plan.limit);
  }

  /** In particular under the names a client prints for the blob, with any trailing metadata. */
  lemma UploadThenReadByName(p: Primitives, events: seq<Event>, i: nat, up: nat, down: nat, key: BlobKey,
          content: Bytes, resource: ResourceNames.Resource, metadata: seq<string>)
    requires Lawful(p) && NoCollisions(p, events) && i <= |events|
    requires up in At(p, events, i).sessions && UploadedBy(p, At(p, events, i).sessions[up], key, content)
    requires down !in At(p, events, i).sessions && down in Run(p, events).sessions && NoFaults(events, down)
    requires Run(p, events).sessions[down].request.Read? && Run(p, events).sessions[down].pc.Done?
    requires ResourceNames.WellFormedResource(resource) && ResourceNames.NoSlashes(metadata)
    requires metadata == [] || resource.algorithm.Some? || resource.hash != "sha256"
    requires Run(p, events).sessions[down].request.name == ResourceNames.Print(resource, metadata)
    requires && resource.uploadId.None? && resource.instance == key.instance && resource.hash == key.hash
             && resource.expectedSize == |content|
    requires || resource.compression == ResourceNames.Plain
             || (&& resource.compression == ResourceNames.Named("zstd")
                 && Run(p, events).sessions[down].request.limit == 0)
    ensures var Session(request, pc) := Run(p, events).sessions[down];
            ReadsBackAs(p, resource, request.offset, request.limit, content, pc.reply)
  {
    ResourceNames.RoundTrip(resource, metadata);
    hide *;
    UploadThenRead(p, events, i, up, down, key, content, resource);
  }

  /** The same through batch reads, whatever encodings the client accepts: the entry is Ok, says
      its encoding, and decodes to the content; it is compressed exactly if the client takes Zstd. */
  lemma UploadThenBatchRead(p: Primitives, events: seq<Event>, i: nat, up: nat, down: nat, key: BlobKey,
          content: Bytes, n: nat)
    requires Lawful(p) && NoCollisions(p, events) && i <= |events|
    requires up in At(p, events, i).sessions && UploadedBy(p, At(p, events, i).sessions[up], key, content)
    requires down !in At(p, events, i).sessions && down in Run(p, events).sessions && NoFaults(events, down)
    requires Run(p, events).sessions[down].request.BatchRead? && Run(p, events).sessions[down].pc.Done?
    requires var request := Run(p, events).sessions[down].request;
             && request.digestFunction in {0, 1} && n < |request.digests|
             && Scope(request.instance, Sha256).CasKey(request.digests[n].hash) == key
    ensures var session := Run(p, events).sessions[down];
            && session.pc.reply.Blobs? && |session.pc.reply.blobs| == |session.request.digests|
            && var item := session.pc.reply.blobs[n];
               && item.status == Ok && item.digest == session.request.digests[n]
               && DecodedItem(p, item) == Some(content)
               && (EncodingFromProto(item.compressor) == Some(Zstd) <==> 1 in session.request.acceptable)
  {
    AtEnd(p, events);
    FaithfulAt(p, events, i);
    FaithfulAt(p, events, |events|);
    var session := Run(p, events).sessions[down];
    assert Faithful(p, At(p, events, i).store, At(p, events, i).sessions[up].request, At(p, events, i).sessions[up].pc);
    assert Faithful(p, Run(p, events).store, session.request, session.pc);
    UploadsAreHeld(p, At(p, events, i).store, At(p, events, i).sessions[up], key, content);
    BatchesReadBack(p, events, i, |events|, down, key, content);
    ZstdIsOne(session.request.acceptable);
    hide Run, At, UploadedBy, AcceptableEncodings;
  }

  lemma {:induction false} ZstdIsOne(values: seq<Int32>)
    ensures Zstd in AcceptableEncodings(values) <==> 1 in values
  {
    if values == [] {
    } else {
      ZstdIsOne(values[1..]);
    }
  }
}
