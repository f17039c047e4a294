/** The invariant over whole runs, and the safety properties that follow at once. */
module Runs {
  import opened Wrappers
  import opened Messages
  import opened Primitives
  import opened BlobStore
  import opened BlobCodec
  import opened ByteStreams
  import opened Calls
  import opened Server
  import opened Invariant
  import Digests
  import ResourceNames
  import Uploads

  // ----- Integrity, whatever the hash function does ------------------------

  predicate CasSound(p: Primitives, s: System) {
    && (forall k | k in s.store && k.kind == ContentAddressableStorage :: CasEntry(p, k, s.store[k]))
    && (forall id | id in s.sessions :: CommitSound(p, s.sessions[id].pc))
  }

  lemma CommitsAreSound(p: Primitives, stream: WriteStream)
    requires Lawful(p) && WriteOutcome(p, stream).Success?
    ensures CommitSound(p, Committing(WriteOutcome(p, stream).value))
  {
    WriteAcceptedExactlyWhenAcceptable(p, stream);
    var resource := ResourceNames.Parse(stream.chunks[0].resourceName).value;
    var data := Payload(stream.chunks, FirstFinish(stream.chunks) + 1);
    ConveyedMeans(p, resource.compression, data);
    hide Acceptable, WriteOutcome, ResourceNames.Parse;
    Uploads.AdmittedExactlyWhenGenuine(p, Sha256, resource.hash, resource.expectedSize, data,
        EncodingOf(resource.compression).value);
    AdmittedIsCasEntry(p, WriteOutcome(p, stream).value.key, resource.expectedSize, data,
        EncodingOf(resource.compression).value);
  }

  lemma StartIsSound(p: Primitives, request: Request)
    requires Lawful(p)
    ensures CommitSound(p, Start(p, request))
    ensures Established(p, map[], Start(p, request)) && forall store :: Established(p, store, Start(p, request))
  {
    if request.Write? && WriteOutcome(p, request.stream).Success? {
      CommitsAreSound(p, request.stream);
    }
  }

  lemma ApplyKeepsCasSound(p: Primitives, s: System, e: Event)
    requires Lawful(p) && CasSound(p, s)
    ensures CasSound(p, Apply(p, s, e))
  {
    hide CasEntry, CasContents;
    match e
    case Begin(id, request) => StartIsSound(p, request);
    case Advance(id, fault) =>
      if id in s.sessions {
        CasPutsAreSound(p, s.sessions[id].pc);
      }
  }

  lemma {:induction false} RunIsCasSound(p: Primitives, events: seq<Event>)
    requires Lawful(p)
    ensures CasSound(p, Run(p, events))
  {
    if events == [] {
    } else {
      RunIsCasSound(p, events[..|events| - 1]);
      ApplyKeepsCasSound(p, Run(p, events[..|events| - 1]), events[|events| - 1]);
    }
  }

  /** In every reachable state, after any interleaving and any faults, each CAS entry decodes to
      data with the key's hash, the recorded sizes are true and within the limit, and only the
      empty blob is ever stored uncompressed. */
  lemma CasIntegrity(p: Primitives, events: seq<Event>, key: BlobKey)
    requires Lawful(p)
    requires key in Run(p, events).store && key.kind == ContentAddressableStorage
    ensures var b := Run(p, events).store[key];
            && Meaning(p, b).Some?
            && WellFormed(p, b, Meaning(p, b).value)
            && |Meaning(p, b).value| <= 104_857_600
            && p.sha256(Meaning(p, b).value) == key.hash
            && (b.metadata.encoding == Identity ==> b.data == [])
  {
    RunIsCasSound(p, events);
    var b := Run(p, events).store[key];
    assert CasEntry(p, key, b);
    TranscodeCanonical(p, ContentOf(p, b), b.metadata.encoding, Identity);
  }

  // ----- The invariant -----------------------------------------------------

  lemma ApplyKeepsInv(p: Primitives, s: System, e: Event)
    requires Lawful(p) && Inv(p, s) && CollisionFree(p, Apply(p, s, e).seen)
    ensures Inv(p, Apply(p, s, e)) && Extends(p, s.store, Apply(p, s, e).store)
  {
    hide StoreOk, Established, Step, CasContents;
    match e
    case Begin(id, request) => StartIsSound(p, request);
    case Advance(id, fault) =>
      if id in s.sessions {
        var pc := s.sessions[id].pc;
        StepKeepsStoreOk(p, s.store, pc, fault);
        StepEstablishes(p, s.store, pc, fault);
        forall other | other in s.sessions && other != id
          ensures Established(p, Apply(p, s, e).store, s.sessions[other].pc)
        {
          EstablishedGrows(p, s.store, Apply(p, s, e).store, s.sessions[other].pc);
        }
      }
  }

  /** The run up to an earlier instant. */
  function At(p: Primitives, events: seq<Event>, i: nat): System
    requires i <= |events|
  {
    Run(p, events[..i])
  }

  lemma AtNext(p: Primitives, events: seq<Event>, i: nat)
    requires i < |events|
    ensures At(p, events, i + 1) == Apply(p, At(p, events, i), events[i])
  {
    assert events[..i + 1][..i] == events[..i];
  }

  lemma AtEnd(p: Primitives, events: seq<Event>)
    ensures At(p, events, |events|) == Run(p, events)
  {
    assert events[..|events|] == events;
  }

  lemma {:induction false} SeenGrows(p: Primitives, events: seq<Event>, i: nat, j: nat)
    requires i <= j <= |events|
    ensures At(p, events, i).seen <= At(p, events, j).seen
    decreases j
  {
    if i == j {
    } else {
      SeenGrows(p, events, i, j - 1);
      AtNext(p, events, j - 1);
    }
  }

  /** Nothing the whole run sees collides, so nothing seen up to an instant does. */
  ghost predicate NoCollisions(p: Primitives, events: seq<Event>) {
    CollisionFree(p, Run(p, events).seen)
  }

  lemma {:induction false} InvAt(p: Primitives, events: seq<Event>, i: nat)
    requires Lawful(p) && i <= |events| && NoCollisions(p, events)
    ensures CollisionFree(p, At(p, events, i).seen) && Inv(p, At(p, events, i))
    decreases i
  {
    AtEnd(p, events);
    SeenGrows(p, events, i, |events|);
    if i == 0 {
      assert Run(p, []) == EMPTY_SYSTEM;
    } else {
      InvAt(p, events, i - 1);
      AtNext(p, events, i - 1);
      ApplyKeepsInv(p, At(p, events, i - 1), events[i - 1]);
    }
  }

  // ----- Stable content ----------------------------------------------------

  /** Over any run, a key once present stays present, and what a CAS key means never changes. */
  lemma {:induction false} ContentIsStable(p: Primitives, events: seq<Event>, i: nat, j: nat)
    requires Lawful(p) && i <= j <= |events| && NoCollisions(p, events)
    ensures Extends(p, At(p, events, i).store, At(p, events, j).store)
    decreases j
  {
    if i == j {
    } else {
      ContentIsStable(p, events, i, j - 1);
      InvAt(p, events, j - 1);
      InvAt(p, events, j);
      AtNext(p, events, j - 1);
      ApplyKeepsInv(p, At(p, events, j - 1), events[j - 1]);
    }
  }

  /** Presence needs no assumption: nothing is ever deleted. */
  lemma {:induction false} KeysStay(p: Primitives, events: seq<Event>, i: nat, j: nat)
    requires i <= j <= |events|
    ensures forall k | k in At(p, events, i).store :: k in At(p, events, j).store
    decreases j
  {
    if i == j {
    } else {
      KeysStay(p, events, i, j - 1);
      AtNext(p, events, j - 1);
    }
  }

  /** Event k puts a blob meaning this content under the key. */
  predicate PutsContent(p: Primitives, events: seq<Event>, k: nat, key: BlobKey, content: Bytes)
    requires k < |events|
  {
    && events[k].Advance? && !events[k].fault && events[k].id in At(p, events, k).sessions
    && var op := NextOp(p, At(p, events, k).sessions[events[k].id].pc);
       op.Put? && op.key == key && ContentOf(p, op.blob) == content
  }

  /** With no assumption on collisions: whatever a CAS key means over a run, it is always
      something with the same hash. */
  lemma ContentsOfOneKeyShareAHash(p: Primitives, events: seq<Event>, i: nat, j: nat, key: BlobKey)
    requires Lawful(p) && i <= j <= |events|
    requires key in At(p, events, i).store && key.kind == ContentAddressableStorage
    ensures key in At(p, events, j).store
    ensures Digests.HashBytes(p, key.algorithm, ContentOf(p, At(p, events, i).store[key])) ==
            Digests.HashBytes(p, key.algorithm, ContentOf(p, At(p, events, j).store[key])) == key.hash
  {
    KeysStay(p, events, i, j);
    CasIntegrity(p, events[..i], key);
    CasIntegrity(p, events[..j], key);
  }

  /** Freedom from collisions is exactly what stability needs: in any run, an event changes what a
      CAS key means if and only if it puts a different content under it, and that content collides
      with the one it replaces. */
  lemma ContentIsReplacedExactlyOnCollision(p: Primitives, events: seq<Event>, k: nat, key: BlobKey)
    requires Lawful(p) && k < |events|
    requires key in At(p, events, k).store && key.kind == ContentAddressableStorage
    ensures key in At(p, events, k + 1).store
    ensures var before, after := ContentOf(p, At(p, events, k).store[key]),
                                 ContentOf(p, At(p, events, k + 1).store[key]);
            && (after != before <==> exists content :: PutsContent(p, events, k, key, content) && content != before)
            && (forall content | PutsContent(p, events, k, key, content) :: content == after)
            && Digests.HashBytes(p, key.algorithm, before) == Digests.HashBytes(p, key.algorithm, after)
  {
    ContentsOfOneKeyShareAHash(p, events, k, k + 1, key);
    AtNext(p, events, k);
    hide At, NextOp, ContentOf, CasContents, Start, Resume;
    var before, after := ContentOf(p, At(p, events, k).store[key]), ContentOf(p, At(p, events, k + 1).store[key]);
    if after != before {
      assert PutsContent(p, events, k, key, after);
    }
  }

  function UploadOf(p: Primitives, data: Bytes): Request
    requires |data| <= MAX_DECOMPRESSED_BLOB_SIZE
  {
    BatchUpdate("", 0, [UploadItem(Some(Digest(p.sha256(data), |data|)), data, 0)])
  }

  /** A new call that uploads this content and meets nothing in between. */
  lemma UploadAlone(p: Primitives, s: System, id: nat, data: Bytes)
    requires Lawful(p) && |data| <= MAX_DECOMPRESSED_BLOB_SIZE && id !in s.sessions
    ensures var after := Apply(p, Apply(p, s, Begin(id, UploadOf(p, data))), Advance(id, false));
            && after.store == s.store[Scope("", Sha256).CasKey(p.sha256(data)) := Canonical(p, data, Zstd)]
            && after.sessions.Keys == s.sessions.Keys + {id}
  {
    Uploads.AdmittedExactlyWhenGenuine(p, Sha256, p.sha256(data), |data|, data, Identity);
    hide Uploads.Admit, Canonical, CasContents;
  }

  /** Two uploads by two calls. */
  function UploadBoth(p: Primitives, a: Bytes, b: Bytes): seq<Event>
    requires |a| <= MAX_DECOMPRESSED_BLOB_SIZE && |b| <= MAX_DECOMPRESSED_BLOB_SIZE
  {
    [Begin(0, UploadOf(p, a)), Advance(0, false), Begin(1, UploadOf(p, b)), Advance(1, false)]
  }

  /** The case arises whenever hashes collide: of two contents within the limit, uploaded by two
      calls, the second replaces the first if and only if they differ and collide. */
  lemma SecondUploadReplacesExactlyOnCollision(p: Primitives, a: Bytes, b: Bytes)
    requires Lawful(p) && |a| <= MAX_DECOMPRESSED_BLOB_SIZE && |b| <= MAX_DECOMPRESSED_BLOB_SIZE
    ensures var events, key := UploadBoth(p, a, b), Scope("", Sha256).CasKey(p.sha256(a));
            && key in At(p, events, 2).store && ContentOf(p, At(p, events, 2).store[key]) == a
            && key in At(p, events, 4).store
            && (ContentOf(p, At(p, events, 4).store[key]) != a <==> p.sha256(a) == p.sha256(b) && a != b)
  {
    var events, key := UploadBoth(p, a, b), Scope("", Sha256).CasKey(p.sha256(a));
    CanonicalContent(p, a, Zstd);
    CanonicalContent(p, b, Zstd);
    hide Canonical, ContentOf, Apply, UploadOf;
    assert Run(p, []) == EMPTY_SYSTEM;
    AtNext(p, events, 0);
    AtNext(p, events, 1);
    AtNext(p, events, 2);
    AtNext(p, events, 3);
    UploadAlone(p, EMPTY_SYSTEM, 0, a);
    UploadAlone(p, At(p, events, 2), 1, b);
  }

  // ----- Closure of the action cache ---------------------------------------

  /** Over all interleavings: every action cache entry decodes to a result whose files, streams,
      trees and tree files are in the CAS of its instance, and its action is there, decodes, and
      names a command that is there. */
  lemma ActionCacheIsClosed(p: Primitives, events: seq<Event>, key: BlobKey)
    requires Lawful(p) && NoCollisions(p, events)
    requires key in Run(p, events).store && key.kind == ActionCache
    ensures var store := Run(p, events).store;
            && ResultOf(p, store[key]).Some?
            && Closed(p, store, ScopeOf(key), ResultOf(p, store[key]).value)
            && ActionReady(p, store, ScopeOf(key), key.hash)
  {
    InvAt(p, events, |events|);
    AtEnd(p, events);
    StoreOkEntry(p, Run(p, events).store, key);
  }
}
