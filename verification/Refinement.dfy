/** The server as its clients may think of it: its state is, per instance, a set of byte strings
    and a map from action hashes to results, with no stored encodings, sizes or blobs. The calls
    themselves are the same programs: an answer hands them content in compressed form, and of a
    blob they put only the content is kept. */
module Refinement {
  import opened Wrappers
  import opened Messages
  import opened Primitives
  import opened BlobStore
  import opened BlobCodec
  import opened ByteStreams
  import opened Calls
  import opened Server
  import opened Invariant
  import opened Runs
  import opened Sessions
  import Digests

  datatype Spec = Spec(cas: set<(string, DigestAlgorithm, Bytes)>, ac: map<BlobKey, ActionResult>)

  datatype SpecSystem = SpecSystem(spec: Spec, sessions: map<nat, Session>)

  // ----- The abstract server -----------------------------------------------

  predicate Matches(p: Primitives, spec: Spec, key: BlobKey, d: Bytes) {
    (key.instance, key.algorithm, d) in spec.cas && Digests.HashBytes(p, key.algorithm, d) == key.hash
  }

  /** The byte string with this hash in this instance's set. */
  ghost function Find(p: Primitives, spec: Spec, key: BlobKey): Option<Bytes> {
    if d :| Matches(p, spec, key, d) then Some(d) else None
  }

  /** The abstract server's answers; content is handed to a call as a compressed blob. */
  ghost function SpecGet(p: Primitives, spec: Spec, key: BlobKey): Option<Blob> {
    match key.kind
    case ContentAddressableStorage =>
      (match Find(p, spec, key)
       case None => None
       case Some(d) => Some(Canonical(p, d, Zstd)))
    case ActionCache =>
      if key in spec.ac then Some(Canonical(p, p.encodeResult(spec.ac[key]), Zstd)) else None
  }

  ghost function SpecAnswer(p: Primitives, spec: Spec, op: Op, fault: bool): (r: Answer)
    ensures Answers(op, r)
  {
    match op
    case Local => Proceed
    case Get(key) => if fault then Failed else Found(SpecGet(p, spec, key))
    case Put(_, _) => if fault then Failed else Stored
    case Contains(key) => if fault then Failed else Has(SpecGet(p, spec, key).Some?)
  }

  /** A put adds one byte string to a set, or one result to a map. */
  function SpecEffect(p: Primitives, spec: Spec, op: Op, fault: bool): Spec {
    if !op.Put? || fault then spec
    else match op.key.kind
      case ContentAddressableStorage =>
        spec.(cas := spec.cas + {(op.key.instance, op.key.algorithm, ContentOf(p, op.blob))})
      case ActionCache =>
        if ResultOf(p, op.blob).Some? then spec.(ac := spec.ac[op.key := ResultOf(p, op.blob).value]) else spec
  }

  ghost function SpecApply(p: Primitives, s: SpecSystem, e: Event): SpecSystem {
    match e
    case Begin(id, request) =>
      if id in s.sessions then s else s.(sessions := s.sessions[id := Session(request, Start(p, request))])
    case Advance(id, fault) =>
      if id !in s.sessions then s
      else
        var session := s.sessions[id];
        var op := NextOp(p, session.pc);
        SpecSystem(SpecEffect(p, s.spec, op, fault),
                   s.sessions[id := session.(pc := Resume(p, session.pc, SpecAnswer(p, s.spec, op, fault)))])
  }

  ghost function SpecRun(p: Primitives, events: seq<Event>): SpecSystem {
    if events == [] then SpecSystem(Spec({}, map[]), map[])
    else SpecApply(p, SpecRun(p, events[..|events| - 1]), events[|events| - 1])
  }

  // ----- The abstraction ---------------------------------------------------

  function Abs(p: Primitives, store: Store): Spec {
    Spec(set k | k in store && k.kind == ContentAddressableStorage :: (k.instance, k.algorithm, ContentOf(p, store[k])),
         map k | k in store && k.kind == ActionCache && ResultOf(p, store[k]).Some? :: ResultOf(p, store[k]).value)
  }

  lemma FindIsLookup(p: Primitives, store: Store, key: BlobKey)
    requires StoreOk(p, store) && key.kind == ContentAddressableStorage
    ensures Find(p, Abs(p, store), key) == if key in store then Some(ContentOf(p, store[key])) else None
  {
    hide ContentOf, AcEntry, Canonical;
    forall d | Matches(p, Abs(p, store), key, d)
      ensures key in store && d == ContentOf(p, store[key])
    {
      var k :| k in store && k.kind == ContentAddressableStorage
            && (k.instance, k.algorithm, ContentOf(p, store[k])) == (key.instance, key.algorithm, d);
      assert CasEntry(p, k, store[k]);
      assert k == key;
    }
    if key in store {
      assert CasEntry(p, key, store[key]);
      assert Matches(p, Abs(p, store), key, ContentOf(p, store[key]));
    }
  }

  lemma ResultIsLookup(p: Primitives, store: Store, key: BlobKey)
    requires StoreOk(p, store) && key.kind == ActionCache
    ensures key in Abs(p, store).ac <==> key in store
    ensures key in store ==> Abs(p, store).ac[key] == ResultOf(p, store[key]).value
                             && store[key] == Canonical(p, p.encodeResult(Abs(p, store).ac[key]), Zstd)
  {
    hide ContentOf, CasEntry, Canonical, Closed, ActionReady;
    if key in store {
      assert AcEntry(p, store, key, store[key]);
    }
  }

  // ----- Answers -----------------------------------------------------------

  /** A batch-read entry depends on the content alone. */
  lemma ReadItemOfContent(p: Primitives, acceptable: seq<StorageEncoding>, digest: Digest, content: Bytes)
    requires Lawful(p) && |content| <= MAX_DECOMPRESSED_BLOB_SIZE
    ensures ReadItem(p, acceptable, digest, Found(Some(Canonical(p, content, Zstd)))) ==
            OkItem(p, acceptable, digest, content)
  {
    TranscodeCanonical(p, content, Zstd, SelectBatchReadResponseEncoding(Zstd, acceptable));
  }

  lemma ReadReplyOfContent(p: Primitives, plan: ReadPlan, b: Blob, content: Bytes)
    requires Lawful(p) && IntoIdentityData(p, b) == Success(content)
    requires b.metadata.uncompressedSize == |content| <= MAX_DECOMPRESSED_BLOB_SIZE
    ensures ReadReply(p, plan, Some(b)) == ReadReply(p, plan, Some(Canonical(p, content, Zstd)))
  {
    TranscodeCanonical(p, content, Zstd, Identity);
    hide IntoIdentityData, Deliver;
  }

  /** The abstract server's answer takes a call to the same point as the real one. */
  lemma AnswersAgree(p: Primitives, store: Store, pc: Pc, fault: bool)
    requires Lawful(p) && StoreOk(p, store)
    ensures Step(p, pc, store, fault).0 == Resume(p, pc, SpecAnswer(p, Abs(p, store), NextOp(p, pc), fault))
  {
    var op := NextOp(p, pc);
    var given, wanted := Perform(op, store, fault).0, SpecAnswer(p, Abs(p, store), op, fault);
    hide StoreOk, Abs, ContentOf, Find;
    if !fault && op.Contains? {
      ContainsOnCas(p, pc);
      FindIsLookup(p, store, op.key);
      hide Resume, NextOp;
      assert given == wanted;
    } else if !fault && op.Get? && op.key.kind == ActionCache {
      ResultIsLookup(p, store, op.key);
      hide Resume, NextOp;
      assert given == wanted;
    } else if !fault && op.Get? && op.key in store {
      FindIsLookup(p, store, op.key);
      CasAnswersAgree(p, store, pc, op.key);
      hide Resume, NextOp;
    } else {
      if !fault && op.Get? {
        FindIsLookup(p, store, op.key);
      }
      hide Resume, NextOp;
      assert given == wanted;
    }
  }

  lemma ContainsOnCas(p: Primitives, pc: Pc)
    ensures NextOp(p, pc).Contains? ==> NextOp(p, pc).key.kind == ContentAddressableStorage
  {
    hide AdmitItem, RecordedBlob;
  }

  lemma CasAnswersAgree(p: Primitives, store: Store, pc: Pc, key: BlobKey)
    requires Lawful(p) && StoreOk(p, store)
    requires NextOp(p, pc) == Get(key) && key.kind == ContentAddressableStorage && key in store
    ensures Resume(p, pc, Found(Some(store[key]))) ==
            Resume(p, pc, Found(Some(Canonical(p, ContentOf(p, store[key]), Zstd))))
  {
    var content := ContentOf(p, store[key]);
    EntryDecodes(p, store, key);
    TranscodeCanonical(p, content, Zstd, Identity);
    if pc.Reading? {
      ReadingAgrees(p, store, pc, key);
    } else if pc.Fetching? {
      hide ContentOf, StoreOk, IntoIdentityData, Canonical, ReadReply;
      ReadReplyOfContent(p, pc.plan, store[key], content);
    } else {
      hide ContentOf, StoreOk, IntoIdentityData, Canonical, Resume;
      LoadsAgree(p, pc, store[key], Canonical(p, content, Zstd));
    }
  }

  lemma ReadingAgrees(p: Primitives, store: Store, pc: Pc, key: BlobKey)
    requires Lawful(p) && StoreOk(p, store) && pc.Reading?
    requires NextOp(p, pc) == Get(key) && key.kind == ContentAddressableStorage && key in store
    ensures Resume(p, pc, Found(Some(store[key]))) ==
            Resume(p, pc, Found(Some(Canonical(p, ContentOf(p, store[key]), Zstd))))
  {
    var content := ContentOf(p, store[key]);
    CasEntryAt(p, store, key);
    assert |content| <= MAX_DECOMPRESSED_BLOB_SIZE;
    hide ContentOf, StoreOk, CasEntry, ReadItem, Canonical;
    ReadItemOfEntry(p, pc.acceptable, pc.digests[pc.next], key, store[key]);
    ReadItemOfContent(p, pc.acceptable, pc.digests[pc.next], content);
  }

  /** A call that loads an action, a tree or a result looks at the decoded data only. */
  lemma LoadsAgree(p: Primitives, pc: Pc, a: Blob, b: Blob)
    requires NextOp(p, pc).Get? && !pc.Reading? && !pc.Fetching?
    requires IntoIdentityData(p, a) == IntoIdentityData(p, b)
    ensures Resume(p, pc, Found(Some(a))) == Resume(p, pc, Found(Some(b)))
  {
    hide IntoIdentityData, AdmitItem, RecordedBlob, TreeDigests, BeginValidation;
  }

  // ----- Effects -----------------------------------------------------------

  lemma EffectsAgree(p: Primitives, store: Store, op: Op, fault: bool)
    requires Lawful(p) && StoreOk(p, store) && SoundPut(p, store, op)
    requires CollisionFree(p, CasContents(p, store) + CasContents(p, Perform(op, store, fault).1))
    ensures Abs(p, Perform(op, store, fault).1) == SpecEffect(p, Abs(p, store), op, fault)
  {
    var after := Perform(op, store, fault).1;
    PerformExtends(p, store, op, fault);
    if op.Put? && !fault {
      assert op.key.kind == ActionCache ==> ResultOf(p, op.blob).Some?;
      hide StoreOk, CasEntry, AcEntry, ContentOf, CasContents, ResultOf;
      CasAbsAfterPut(p, store, op.key, op.blob);
    }
  }

  lemma CasAbsAfterPut(p: Primitives, store: Store, key: BlobKey, b: Blob)
    requires Extends(p, store, store[key := b])
    requires key.kind == ActionCache ==> ResultOf(p, b).Some?
    ensures Abs(p, store[key := b]) == SpecEffect(p, Abs(p, store), Put(key, b), false)
  {
    hide ContentOf, ResultOf;
    var after := store[key := b];
    var abs, spec := Abs(p, after), SpecEffect(p, Abs(p, store), Put(key, b), false);
    forall t | t in Abs(p, store).cas
      ensures t in abs.cas
    {
      var k :| k in store && k.kind == ContentAddressableStorage &&
            t == (k.instance, k.algorithm, ContentOf(p, store[k]));
      assert k in after && ContentOf(p, after[k]) == ContentOf(p, store[k]);
    }
    assert key in after && after[key] == b;
    assert abs.cas == spec.cas;
    assert abs.ac == spec.ac;
  }

  // ----- Simulation --------------------------------------------------------

  lemma ApplySimulates(p: Primitives, s: System, e: Event)
    requires Lawful(p) && Inv(p, s) && CollisionFree(p, Apply(p, s, e).seen)
    ensures SpecApply(p, SpecSystem(Abs(p, s.store), s.sessions), e) ==
            SpecSystem(Abs(p, Apply(p, s, e).store), Apply(p, s, e).sessions)
  {
    match e
    case Begin(_, _) =>
      hide Abs, Start, Inv;
    case Advance(id, fault) =>
      if id in s.sessions {
        var pc := s.sessions[id].pc;
        assert Step(p, pc, s.store, fault).1 == Perform(NextOp(p, pc), s.store, fault).1;
        StepPutsSoundly(p, s.store, pc);
        AnswersAgree(p, s.store, pc, fault);
        hide Abs, Step, NextOp, Resume, Perform, SpecAnswer, SpecEffect, StoreOk, SoundPut, CasContents, Established;
        EffectsAgree(p, s.store, NextOp(p, pc), fault);
      }
  }

  /** Under every interleaving and every pattern of faults the server and the abstract server
      go through the same calls in the same states, give the same replies, and end with the
      abstract store being exactly what the concrete store stands for. */
  lemma {:induction false} ServerRefinesSpec(p: Primitives, events: seq<Event>)
    requires Lawful(p) && NoCollisions(p, events)
    ensures SpecRun(p, events) == SpecSystem(Abs(p, Run(p, events).store), Run(p, events).sessions)
  {
    if events == [] {
      assert Abs(p, map[]) == Spec({}, map[]);
    } else {
      var last := |events| - 1;
      InvAt(p, events, last);
      AtEnd(p, events);
      SeenGrows(p, events, last, |events|);
      ServerRefinesSpec(p, events[..last]);
      ApplySimulates(p, Run(p, events[..last]), events[last]);
    }
  }
}
