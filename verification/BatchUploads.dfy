/** A batch update on its own: each item decided by itself, and the order of no consequence. */
module BatchUploads {
  import opened Wrappers
  import opened Messages
  import opened Primitives
  import opened BlobStore
  import opened BlobCodec
  import opened Calls
  import opened Server
  import opened Invariant
  import opened Steps
  import Refinement
  import Digests
  import Uploads

  predicate Accepted(p: Primitives, scope: Scope, item: UploadItem) {
    AdmitItem(p, scope, item).Success?
  }

  function ItemContent(p: Primitives, item: UploadItem): Bytes
    requires EncodingFromProto(item.compressor).Some?
  {
    Content(p, item.data, EncodingFromProto(item.compressor).value)
  }

  /** The response to an item, decided by the item alone. */
  function ResponseTo(p: Primitives, scope: Scope, item: UploadItem): UploadResponse {
    UploadResponse(item.digest, if Accepted(p, scope, item) then Ok else AdmitItem(p, scope, item).error)
  }

  function Responses(p: Primitives, scope: Scope, items: seq<UploadItem>, n: nat): seq<UploadResponse>
    requires n <= |items|
  {
    seq(n, i requires 0 <= i < n => ResponseTo(p, scope, items[i]))
  }

  /** The store after the first n items. */
  function PutFirst(p: Primitives, scope: Scope, items: seq<UploadItem>, n: nat, store: Store): Store
    requires n <= |items|
  {
    if n == 0 then store
    else
      var before := PutFirst(p, scope, items, n - 1, store);
      if Accepted(p, scope, items[n - 1])
      then before[ItemKey(scope, items[n - 1]) := AdmitItem(p, scope, items[n - 1]).value]
      else before
  }

  /** What an item must satisfy, and what it then stores. */
  lemma AcceptedExactlyWhen(p: Primitives, scope: Scope, item: UploadItem)
    requires Lawful(p)
    ensures Accepted(p, scope, item) <==>
              && item.digest.Some? && EncodingFromProto(item.compressor).Some?
              && Uploads.Genuine(p, scope.algorithm, item.digest.value.hash, item.digest.value.sizeBytes,
                  item.data, EncodingFromProto(item.compressor).value)
    ensures Accepted(p, scope, item) ==>
              && AdmitItem(p, scope, item).value == Canonical(p, ItemContent(p, item), Zstd)
              && CasEntry(p, ItemKey(scope, item), AdmitItem(p, scope, item).value)
    ensures !Accepted(p, scope, item) ==> AdmitItem(p, scope, item).error == InvalidArgument
  {
    if item.digest.Some? && EncodingFromProto(item.compressor).Some? {
      var digest := item.digest.value;
      hide Uploads.Genuine, Content, Uploads.Admit, Canonical, CasEntry;
      Uploads.AdmittedExactlyWhenGenuine(p, scope.algorithm, digest.hash, digest.sizeBytes, item.data,
          EncodingFromProto(item.compressor).value);
      if Accepted(p, scope, item) {
        AdmittedIsCasEntry(p, ItemKey(scope, item), digest.sizeBytes, item.data,
                          EncodingFromProto(item.compressor).value);
      }
    }
  }

  lemma {:induction false} UploadsFinish(p: Primitives, scope: Scope, items: seq<UploadItem>, n: nat, store: Store)
    requires n <= |items|
    ensures Finish(p, Uploading(scope, items, n, Responses(p, scope, items, n)),
                   PutFirst(p, scope, items, n, store), false) ==
            (Updated(Responses(p, scope, items, |items|)), PutFirst(p, scope, items, |items|, store))
    decreases |items| - n
  {
    hide Step, AdmitItem, Responses;
    UploadingStep(p, scope, items, n, Responses(p, scope, items, n), PutFirst(p, scope, items, n, store), false);
    if n == |items| {
    } else {
      ResponsesNext(p, scope, items, n);
      UploadsFinish(p, scope, items, n + 1, store);
    }
  }

  lemma ResponsesNext(p: Primitives, scope: Scope, items: seq<UploadItem>, n: nat)
    requires n < |items|
    ensures Responses(p, scope, items, n + 1) == Responses(p, scope, items, n) + [ResponseTo(p, scope, items[n])]
  {
    hide ResponseTo;
  }

  /** What a fault-free batch update answers and stores. */
  lemma BatchUpdateOutcome(p: Primitives, instance: string, fn: Int32, items: seq<UploadItem>, store: Store)
    requires fn in {0, 1}
    ensures var scope := Scope(instance, Sha256);
            RunAlone(p, BatchUpdate(instance, fn, items), store, false) ==
            (Updated(Responses(p, scope, items, |items|)), PutFirst(p, scope, items, |items|, store))
  {
    var scope := Scope(instance, Sha256);
    assert Responses(p, scope, items, 0) == [];
    hide Finish, Responses;
    UploadsFinish(p, scope, items, 0, store);
  }

  /** The contents a batch adds. */
  function AcceptedContents(p: Primitives, scope: Scope, items: seq<UploadItem>): set<Bytes> {
    set item | item in items && Accepted(p, scope, item) :: ItemContent(p, item)
  }

  predicate Supplies(p: Primitives, scope: Scope, item: UploadItem, key: BlobKey) {
    Accepted(p, scope, item) && ItemKey(scope, item) == key
  }

  /** Entry by entry: the blob of an item that supplies it, or else the old entry. */
  lemma {:induction false} PutFirstEntry(p: Primitives, scope: Scope, items: seq<UploadItem>, n: nat, store: Store,
          key: BlobKey)
    returns (supplier: Option<nat>)
    requires n <= |items|
    ensures var after := PutFirst(p, scope, items, n, store);
            match supplier
            case Some(i) => && i < n && Supplies(p, scope, items[i], key)
                            && key in after && after[key] == AdmitItem(p, scope, items[i]).value
            case None => && (forall i | 0 <= i < n :: !Supplies(p, scope, items[i], key))
                         && (key in after <==> key in store) && (key in store ==> after[key] == store[key])
    decreases n
  {
    hide AdmitItem;
    if n == 0 {
      supplier := None;
    } else if Supplies(p, scope, items[n - 1], key) {
      supplier := Some(n - 1);
    } else {
      supplier := PutFirstEntry(p, scope, items, n - 1, store, key);
    }
  }

  lemma SameKeySameBlob(p: Primitives, scope: Scope, contents: set<Bytes>, a: UploadItem, b: UploadItem)
    requires Lawful(p) && CollisionFree(p, contents)
    requires Accepted(p, scope, a) && Accepted(p, scope, b) &&
             ItemContent(p, a) in contents && ItemContent(p, b) in contents
    requires ItemKey(scope, a) == ItemKey(scope, b)
    ensures AdmitItem(p, scope, a).value == AdmitItem(p, scope, b).value
  {
    AcceptedExactlyWhen(p, scope, a);
    AcceptedExactlyWhen(p, scope, b);
    hide Canonical, AdmitItem, Accepted, CasEntry;
  }

  lemma PermutedEntry(p: Primitives, scope: Scope, items: seq<UploadItem>, other: seq<UploadItem>, store: Store,
          key: BlobKey)
    requires Lawful(p) && multiset(items) == multiset(other)
    requires CollisionFree(p, AcceptedContents(p, scope, items))
    ensures var one, two := PutFirst(p, scope, items, |items|, store), PutFirst(p, scope, other, |other|, store);
            (key in one <==> key in two) && (key in one ==> one[key] == two[key])
  {
    var i := PutFirstEntry(p, scope, items, |items|, store, key);
    var j := PutFirstEntry(p, scope, other, |other|, store, key);
    hide PutFirst, CollisionFree, AcceptedContents, Accepted, AdmitItem, ItemContent;
    if i.Some? {
      var k := SameElement(items, other, i.value);
      assert Supplies(p, scope, other[k], key);
    }
    if j.Some? {
      var k := SameElement(other, items, j.value);
      assert Supplies(p, scope, items[k], key);
    }
    if i.Some? && j.Some? {
      var k := SameElement(other, items, j.value);
      AcceptedIsIn(p, scope, items, items[i.value]);
      AcceptedIsIn(p, scope, items, items[k]);
      SameKeySameBlob(p, scope, AcceptedContents(p, scope, items), items[i.value], items[k]);
    }
  }

  lemma SameElement(items: seq<UploadItem>, other: seq<UploadItem>, i: nat) returns (k: nat)
    requires multiset(items) == multiset(other) && i < |items|
    ensures k < |other| && other[k] == items[i]
  {
    assert items[i] in multiset(other);
    k :| k < |other| && other[k] == items[i];
  }

  /** Permuting a batch permutes its responses -- each is a function of its item -- and leaves
      the final store the same. */
  lemma BatchOrderDoesNotMatter(p: Primitives, instance: string, fn: Int32, items: seq<UploadItem>,
          other: seq<UploadItem>, store: Store)
    requires Lawful(p) && fn in {0, 1} && multiset(items) == multiset(other)
    requires CollisionFree(p, AcceptedContents(p, Scope(instance, Sha256), items))
    ensures var scope := Scope(instance, Sha256);
            var (one, oneStore) := RunAlone(p, BatchUpdate(instance, fn, items), store, false);
            var (two, twoStore) := RunAlone(p, BatchUpdate(instance, fn, other), store, false);
            && oneStore == twoStore
            && one.Updated? && two.Updated? && |one.responses| == |items| && |two.responses| == |other|
            && (forall i | 0 <= i < |items| :: one.responses[i] == ResponseTo(p, scope, items[i]))
            && (forall i | 0 <= i < |other| :: two.responses[i] == ResponseTo(p, scope, other[i]))
  {
    var scope := Scope(instance, Sha256);
    hide RunAlone, PutFirst, Accepted, ResponseTo, AcceptedContents;
    BatchUpdateOutcome(p, instance, fn, items, store);
    BatchUpdateOutcome(p, instance, fn, other, store);
    forall key
      ensures var one, two := PutFirst(p, scope, items, |items|, store), PutFirst(p, scope, other, |other|, store);
              (key in one <==> key in two) && (key in one ==> one[key] == two[key])
    {
      PermutedEntry(p, scope, items, other, store, key);
    }
  }

  /** What the first n items add to the sets of byte strings. */
  function AddedBy(p: Primitives, scope: Scope, items: seq<UploadItem>, n: nat): set<(string, DigestAlgorithm, Bytes)>
    requires n <= |items|
  {
    set i | 0 <= i < n && Accepted(p, scope, items[i]) :: (scope.instance, scope.algorithm, ItemContent(p, items[i]))
  }

  lemma AddedNext(p: Primitives, scope: Scope, items: seq<UploadItem>, n: nat)
    requires n < |items|
    ensures AddedBy(p, scope, items, n + 1) == AddedBy(p, scope, items, n) +
            if Accepted(p, scope, items[n]) then {(scope.instance, scope.algorithm, ItemContent(p, items[n]))} else {}
  {
    assert Accepted(p, scope, items[n]) ==> EncodingFromProto(items[n].compressor).Some?;
    hide Accepted, ItemContent;
  }

  /** One accepted item, against the abstract store. */
  lemma AcceptedPut(p: Primitives, scope: Scope, item: UploadItem, store: Store)
    requires Lawful(p) && StoreOk(p, store) && Accepted(p, scope, item)
    requires CollisionFree(p, CasContents(p, store) + {ItemContent(p, item)})
    ensures var after := store[ItemKey(scope, item) := AdmitItem(p, scope, item).value];
            && StoreOk(p, after) && CasContents(p, after) <= CasContents(p, store) + {ItemContent(p, item)}
            && Refinement.Abs(p, after) ==
               Refinement.Abs(p, store).(
                 cas := Refinement.Abs(p, store).cas + {(scope.instance, scope.algorithm, ItemContent(p, item))})
  {
    AcceptedExactlyWhen(p, scope, item);
    CanonicalContent(p, ItemContent(p, item), Zstd);
    hide StoreOk, AdmitItem, Accepted, ItemContent, Refinement.Abs, Canonical, CasContents, ContentOf, CasEntry;
    var op := Put(ItemKey(scope, item), AdmitItem(p, scope, item).value);
    CasContentsAfterPut(p, store, op.key, op.blob);
    var after := Perform(op, store, false).1;
    assert CollisionFree(p, CasContents(p, store) + CasContents(p, after));
    hide CollisionFree;
    PerformKeepsStoreOk(p, store, op, false);
    Refinement.EffectsAgree(p, store, op, false);
  }

  /** The set of byte strings after a batch is the old set and the accepted contents, no more. */
  lemma {:induction false} BatchAddsExactlyTheAccepted(p: Primitives, scope: Scope, items: seq<UploadItem>, n: nat,
          store: Store)
    requires Lawful(p) && StoreOk(p, store) && n <= |items|
    requires CollisionFree(p, CasContents(p, store) + AcceptedContents(p, scope, items))
    ensures var after := PutFirst(p, scope, items, n, store);
            && StoreOk(p, after)
            && CasContents(p, after) <= CasContents(p, store) + AcceptedContents(p, scope, items)
            && Refinement.Abs(p, after) ==
               Refinement.Abs(p, store).(cas := Refinement.Abs(p, store).cas + AddedBy(p, scope, items, n))
    decreases n
  {
    hide StoreOk, AdmitItem, Accepted, ItemContent, Refinement.Abs, AcceptedContents, CasContents, AddedBy;
    if n == 0 {
      assert AddedBy(p, scope, items, 0) == {} by { AddedNone(p, scope, items); }
    } else {
      BatchAddsExactlyTheAccepted(p, scope, items, n - 1, store);
      AddedNext(p, scope, items, n - 1);
      var item := items[n - 1];
      if Accepted(p, scope, item) {
        AcceptedIsIn(p, scope, items, item);
        AcceptedPut(p, scope, item, PutFirst(p, scope, items, n - 1, store));
      }
    }
  }

  lemma AddedNone(p: Primitives, scope: Scope, items: seq<UploadItem>)
    ensures AddedBy(p, scope, items, 0) == {}
  {
  }

  lemma AcceptedIsIn(p: Primitives, scope: Scope, items: seq<UploadItem>, item: UploadItem)
    requires item in items && Accepted(p, scope, item)
    ensures ItemContent(p, item) in AcceptedContents(p, scope, items)
  {
    assert EncodingFromProto(item.compressor).Some?;
    hide AdmitItem, Accepted, ItemContent, EncodingFromProto;
  }

  lemma CasContentsAfterPut(p: Primitives, store: Store, key: BlobKey, b: Blob)
    requires key.kind == ContentAddressableStorage
    ensures CasContents(p, store[key := b]) <= CasContents(p, store) + {ContentOf(p, b)}
  {
    hide ContentOf;
  }
}
