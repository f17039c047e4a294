/** Keys, metadata and blobs: the data the store holds. */
module BlobStore {
  import opened Wrappers
  import opened Primitives

  datatype DigestAlgorithm = Sha256
  datatype CacheKind = ContentAddressableStorage | ActionCache
  datatype BlobKey = BlobKey(instance: string, algorithm: DigestAlgorithm, hash: string, kind: CacheKind)

  datatype StorageEncoding = Identity | Zstd {
    function AsProtoValue(): Int32 {
      match this
      case Identity => 0
      case Zstd => 1
    }
  }

  /** IDENTITY = 0 and ZSTD = 1; DEFLATE = 2, BROTLI = 3 and unknown values are unsupported. */
  function EncodingFromProto(value: Int32): (r: Option<StorageEncoding>)
    ensures forall e: StorageEncoding :: r == Some(e) <==> e.AsProtoValue() == value
    ensures r == if value == 0 then Some(Identity) else if value == 1 then Some(Zstd) else None
  {
    if value == 0 then Some(Identity) else if value == 1 then Some(Zstd) else None
  }

  datatype Metadata = Metadata(encoding: StorageEncoding, uncompressedSize: nat, storedSize: nat)
  datatype Blob = Blob(metadata: Metadata, data: Bytes)

  function EncodedBlob(data: Bytes, encoding: StorageEncoding, uncompressedSize: nat): Blob {
    Blob(Metadata(encoding, uncompressedSize, |data|), data)
  }

  function IdentityBlob(data: Bytes): Blob {
    EncodedBlob(data, Identity, |data|)
  }

  /** What bytes mean under an encoding. */
  function Decoded(p: Primitives, data: Bytes, encoding: StorageEncoding): Option<Bytes> {
    match encoding
    case Identity => Some(data)
    case Zstd => FullDecode(p, data)
  }

  /** What the stored bytes mean under the recorded encoding. */
  function Meaning(p: Primitives, b: Blob): Option<Bytes> {
    Decoded(p, b.data, b.metadata.encoding)
  }

  /** The same for bytes that decode. */
  function Content(p: Primitives, data: Bytes, encoding: StorageEncoding): Bytes {
    match Decoded(p, data, encoding)
    case None => []
    case Some(content) => content
  }

  function ContentOf(p: Primitives, b: Blob): Bytes {
    Content(p, b.data, b.metadata.encoding)
  }
}
