/** The gate in front of every CAS upload, shared by batch updates and stream writes. */
module Uploads {
  import opened Wrappers
  import opened Messages
  import opened Primitives
  import opened BlobStore
  import opened BlobCodec
  import Digests

  /** Decode the data as declared, then check its size and hash. */
  function Verify(p: Primitives, algorithm: DigestAlgorithm, hash: string, size: Int64, data: Bytes,
          encoding: StorageEncoding): Result<Bytes, Code> {
    if size < 0 then Failure(InvalidArgument)
    else match IntoIdentityData(p, EncodedBlob(data, encoding, size))
      case Failure(_) => Failure(InvalidArgument)
      case Success(identity) =>
        if Digests.Validate(p, algorithm, hash, size, identity).Failure? then Failure(InvalidArgument)
        else Success(identity)
  }

  /** The blob an upload leaves in the store, or the code it is refused with. */
  function Admit(p: Primitives, algorithm: DigestAlgorithm, hash: string, size: Int64, data: Bytes,
          encoding: StorageEncoding): Result<Blob, Code> {
    var identity :- Verify(p, algorithm, hash, size, data, encoding);
    match FromIdentityData(p, identity, Zstd)
    case Failure(_) => Failure(Internal)
    case Success(stored) => Success(stored)
  }

  /** The declared digest is the digest of what the data means, within the limit. */
  predicate Genuine(p: Primitives, algorithm: DigestAlgorithm, hash: string, size: Int64, data: Bytes,
          encoding: StorageEncoding) {
    match Decoded(p, data, encoding)
    case None => false
    case Some(content) =>
      |content| == size <= MAX_DECOMPRESSED_BLOB_SIZE && hash == Digests.HashBytes(p, algorithm, content)
  }

  /** An upload is admitted exactly when it is genuine; it is stored as the compressed form of
      what it means, whatever encoding it came in; and it is never the server that fails. */
  lemma AdmittedExactlyWhenGenuine(p: Primitives, algorithm: DigestAlgorithm, hash: string, size: Int64, data: Bytes,
          encoding: StorageEncoding)
    requires Lawful(p)
    ensures var r := Admit(p, algorithm, hash, size, data, encoding);
            r == if Genuine(p, algorithm, hash, size, data, encoding)
                 then Success(Canonical(p, Content(p, data, encoding), Zstd))
                 else Failure(InvalidArgument)
  {
    hide DecompressZstd, FullDecode, Lawful;
    if 0 <= size {
      if encoding.Zstd? && size <= MAX_DECOMPRESSED_BLOB_SIZE {
        BoundedDecodeIsFullDecode(p, data, size);
      }
      TranscodeCanonical(p, Content(p, data, encoding), Identity, Zstd);
    }
  }
}
