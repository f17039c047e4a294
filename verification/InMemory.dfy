/** The in-memory store behind all services: one map under a reader-writer lock. */
module InMemory {
  import opened Wrappers
  import opened BlobStore

  datatype StorageError = Unavailable

  class InMemoryStore {
    var blobs: map<BlobKey, Blob>
    // A panic under the write lock poisons it; every later operation then fails.
    var poisoned: bool

    constructor ()
      ensures blobs == map[] && !poisoned
    {
      blobs := map[];
      poisoned := false;
    }

    method Get(key: BlobKey) returns (r: Result<Option<Blob>, StorageError>)
      ensures poisoned ==> r == Failure(Unavailable)
      ensures !poisoned ==> r == Success(if key in blobs then Some(blobs[key]) else None)
    {
      if poisoned {
        return Failure(Unavailable);
      }
      return Success(if key in blobs then Some(blobs[key]) else None);
    }

    method Put(key: BlobKey, metadata: Metadata, body: Bytes) returns (r: Result<(), StorageError>)
      modifies this`blobs
      ensures poisoned ==> r == Failure(Unavailable) && blobs == old(blobs)
      ensures !poisoned ==> r == Success(()) && blobs == old(blobs)[key := Blob(metadata, body)]
    {
      if poisoned {
        return Failure(Unavailable);
      }
      blobs := blobs[key := Blob(metadata, body)];
      return Success(());
    }

    method Contains(key: BlobKey) returns (r: Result<bool, StorageError>)
      ensures poisoned ==> r == Failure(Unavailable)
      ensures !poisoned ==> r == Success(key in blobs)
    {
      if poisoned {
        return Failure(Unavailable);
      }
      return Success(key in blobs);
    }
  }
}
