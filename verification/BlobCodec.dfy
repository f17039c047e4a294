/** The blob codec: bounded decompression, transcoding, and the encoding of batch-read replies. */
module BlobCodec {
  import opened Wrappers
  import opened Primitives
  import opened BlobStore

  /** 100 MiB. */
  const MAX_DECOMPRESSED_BLOB_SIZE: nat := 100 * 1024 * 1024

  datatype CodecError = Io | SizeMismatch(expected: nat, actual: nat) | LimitExceeded(actual: nat)

  // ----- Readers -----------------------------------------------------------

  /** A byte source such as a decoder or a cursor. Each read delivers any non-empty part of
      what is left, as large as the caller's buffer at most; then comes end of stream or an error. */
  class Reader {
    var left: Bytes
    const complete: bool

    constructor (decoding: Decoding)
      ensures left == decoding.bytes && complete == decoding.complete
    {
      left := decoding.bytes;
      complete := decoding.complete;
    }

    /** An empty result is the end of the stream. */
    method Read(space: nat) returns (r: Result<Bytes, CodecError>)
      requires space > 0
      modifies this`left
      ensures r.Failure? <==> old(left) == [] && !complete
      ensures r.Failure? ==> r == Failure(Io) && left == old(left)
      ensures r.Success? ==> r.value + left == old(left) && |r.value| <= space
      ensures r.Success? && r.value == [] ==> old(left) == []
    {
      if left == [] {
        return if complete then Success([]) else Failure(Io);
      }
      var n: nat :| 1 <= n <= |left| && n <= space;
      r := Success(left[..n]);
      left := left[n..];
    }
  }

  /** `read_to_end` on a reader cut off by `take(limit)`. */
  function TakeToEnd(source: Decoding, limit: nat): Result<Bytes, CodecError> {
    if limit <= |source.bytes| then Success(source.bytes[..limit])
    else if source.complete then Success(source.bytes)
    else Failure(Io)
  }

  /** The result is the same for every pattern of short reads, and the buffer, whose largest size
      is `peak`, never exceeds the limit, even when the read fails in the end. */
  method ReadToEndLimited(reader: Reader, limit: nat) returns (r: Result<Bytes, CodecError>, ghost peak: nat)
    modifies reader
    ensures r == TakeToEnd(Decoding(old(reader.left), reader.complete), limit)
    ensures r.Success? ==> |r.value| == peak
    ensures peak == Min(|old(reader.left)|, limit)
  {
    var output: Bytes := [];
    peak := 0;
    while |output| < limit
      invariant |output| == peak <= limit
      invariant output + reader.left == old(reader.left)
      decreases |reader.left|
    {
      var space: nat :| space > 0; // the spare room of the growing buffer
      var chunk :- reader.Read(Min(space, limit - |output|));
      if chunk == [] {
        assert output == old(reader.left);
        return Success(output), peak;
      }
      output := output + chunk;
      peak := |output|;
    }
    assert output == old(reader.left)[..limit];
    return Success(output), peak;
  }

  method ReadToEnd(reader: Reader) returns (r: Result<Bytes, CodecError>)
    modifies reader
    ensures r == if reader.complete then Success(old(reader.left)) else Failure(Io)
  {
    var output: Bytes := [];
    while true
      invariant output + reader.left == old(reader.left)
      decreases |reader.left|
    {
      var space: nat :| space > 0;
      var chunk :- reader.Read(space);
      if chunk == [] {
        assert output == old(reader.left);
        return Success(output);
      }
      output := output + chunk;
    }
  }

  // ----- Bounded decompression ---------------------------------------------

  function DecompressZstd(p: Primitives, data: Bytes, expected: nat): Result<Bytes, CodecError> {
    var output :- TakeToEnd(p.decoder(data), SaturatingIncrement(expected));
    if |output| != expected then Failure(SizeMismatch(expected, |output|)) else Success(output)
  }

  method Decompress(p: Primitives, data: Bytes, expected: nat) returns (r: Result<Bytes, CodecError>)
    ensures r == DecompressZstd(p, data, expected)
  {
    var decoder := new Reader(p.decoder(data));
    var output, _ :- ReadToEndLimited(decoder, SaturatingIncrement(expected));
    if |output| != expected {
      return Failure(SizeMismatch(expected, |output|));
    }
    return Success(output);
  }

  /** Bounding the decoder changes nothing: it accepts exactly the streams that decode in
      full to the expected size, and otherwise says how far it looked. */
  lemma BoundedDecodeIsFullDecode(p: Primitives, data: Bytes, expected: nat)
    requires expected < U64_MAX
    ensures var r := DecompressZstd(p, data, expected);
            && (forall out :: r == Success(out) <==> FullDecode(p, data) == Some(out) && |out| == expected)
            && (forall out :: FullDecode(p, data) == Some(out) && |out| != expected ==>
                  r == Failure(SizeMismatch(expected, Min(|out|, expected + 1))))
            && (FullDecode(p, data).None? ==>
                  r == Failure(if |p.decoder(data).bytes| <= expected then Io
                               else SizeMismatch(expected, expected + 1)))
  {
    var decoding := p.decoder(data);
    assert decoding.bytes[..|decoding.bytes|] == decoding.bytes;
  }

  /** At the u64 maximum the increment saturates, and the decoder no longer looks past the
      expected size: agreement with the full decode then depends on the stream. */
  lemma BoundedDecodeAgreesExactlyWhen(p: Primitives, data: Bytes, expected: nat)
    requires expected <= U64_MAX
    ensures var decoding := p.decoder(data);
            (forall out :: DecompressZstd(p, data, expected) == Success(out) <==>
                             FullDecode(p, data) == Some(out) && |out| == expected)
            <==> (expected < U64_MAX || |decoding.bytes| < U64_MAX ||
                  (|decoding.bytes| == U64_MAX && decoding.complete))
  {
    var decoding := p.decoder(data);
    if expected < U64_MAX {
      BoundedDecodeIsFullDecode(p, data, expected);
    } else if |decoding.bytes| >= U64_MAX {
      assert DecompressZstd(p, data, expected) == Success(decoding.bytes[..U64_MAX]);
      assert decoding.bytes[..|decoding.bytes|] == decoding.bytes;
    }
  }

  // ----- Transcoding -------------------------------------------------------

  /** With two encodings, a source other than the target leaves two pairs; the source's
      catch-all `Unsupported` branch cannot be reached. */
  function Transcode(p: Primitives, b: Blob, target: StorageEncoding): Result<Blob, CodecError> {
    var metadata := b.metadata;
    if metadata.uncompressedSize > MAX_DECOMPRESSED_BLOB_SIZE then Failure(LimitExceeded(metadata.uncompressedSize))
    else if metadata.encoding == target then Success(b)
    else match target
      case Zstd =>
        if |b.data| != metadata.uncompressedSize then Failure(SizeMismatch(metadata.uncompressedSize, |b.data|))
        else Success(EncodedBlob(p.compress(b.data), Zstd, metadata.uncompressedSize))
      case Identity =>
        var data :- DecompressZstd(p, b.data, metadata.uncompressedSize);
        Success(EncodedBlob(data, Identity, metadata.uncompressedSize))
  }

  function IntoIdentityData(p: Primitives, b: Blob): Result<Bytes, CodecError> {
    var identity :- Transcode(p, b, Identity);
    Success(identity.data)
  }

  function FromIdentityData(p: Primitives, data: Bytes, target: StorageEncoding): Result<Blob, CodecError> {
    Transcode(p, IdentityBlob(data), target)
  }

  method TranscodeBlob(p: Primitives, b: Blob, target: StorageEncoding) returns (r: Result<Blob, CodecError>)
    ensures r == Transcode(p, b, target)
  {
    var metadata := b.metadata;
    if metadata.uncompressedSize > MAX_DECOMPRESSED_BLOB_SIZE {
      return Failure(LimitExceeded(metadata.uncompressedSize));
    }
    if metadata.encoding == target {
      return Success(b);
    }
    var body := new Reader(Decoding(b.data, true));
    var read := ReadToEnd(body); // a cursor over memory does not fail
    var data := read.value;
    match target {
      case Zstd =>
        if |data| != metadata.uncompressedSize {
          return Failure(SizeMismatch(metadata.uncompressedSize, |data|));
        }
        data := p.compress(data);
      case Identity =>
        data :- Decompress(p, data, metadata.uncompressedSize);
    }
    return Success(Blob(Metadata(target, metadata.uncompressedSize, |data|), data));
  }

  method IntoIdentity(p: Primitives, b: Blob) returns (r: Result<Bytes, CodecError>)
    ensures r == IntoIdentityData(p, b)
  {
    var identity :- TranscodeBlob(p, b, Identity);
    var body := new Reader(Decoding(identity.data, true));
    r := ReadToEnd(body);
  }

  /** A blob that means `content` and whose metadata tells the truth about it. */
  predicate WellFormed(p: Primitives, b: Blob, content: Bytes) {
    && Meaning(p, b) == Some(content)
    && b.metadata.uncompressedSize == |content| <= MAX_DECOMPRESSED_BLOB_SIZE
    && b.metadata.storedSize == |b.data|
  }

  lemma TranscodePreservesMeaning(p: Primitives, b: Blob, content: Bytes, target: StorageEncoding)
    requires Lawful(p) && WellFormed(p, b, content)
    ensures var r := Transcode(p, b, target);
            r.Success? && r.value.metadata.encoding == target && WellFormed(p, r.value, content)
    ensures IntoIdentityData(p, b) == Success(content)
  {
    BoundedDecodeIsFullDecode(p, b.data, b.metadata.uncompressedSize);
  }

  /** Any blob at all, even one whose metadata lies: if it can be re-encoded, the result is sound. */
  lemma ChangingEncodingChecksTheBlob(p: Primitives, b: Blob, target: StorageEncoding)
    requires Lawful(p) && b.metadata.encoding != target
    ensures var r := Transcode(p, b, target);
            && (r.Success? ==> Meaning(p, b).Some? && WellFormed(p, r.value, Meaning(p, b).value))
            && (r.Success? <==> b.metadata.uncompressedSize <= MAX_DECOMPRESSED_BLOB_SIZE &&
                                Meaning(p, b).Some? && |Meaning(p, b).value| == b.metadata.uncompressedSize)
  {
    if b.metadata.uncompressedSize <= MAX_DECOMPRESSED_BLOB_SIZE {
      BoundedDecodeIsFullDecode(p, b.data, b.metadata.uncompressedSize);
    }
  }

  function TranscodeAll(p: Primitives, b: Blob, targets: seq<StorageEncoding>): Result<Blob, CodecError>
    decreases |targets|
  {
    if targets == [] then Success(b)
    else
      var next :- Transcode(p, b, targets[0]);
      TranscodeAll(p, next, targets[1..])
  }

  lemma {:induction false} TranscodingsPreserveMeaning(p: Primitives, b: Blob, content: Bytes,
          targets: seq<StorageEncoding>)
    requires Lawful(p) && WellFormed(p, b, content)
    ensures var r := TranscodeAll(p, b, targets);
            && r.Success? && WellFormed(p, r.value, content)
            && r.value.metadata.encoding == (if targets == [] then b.metadata.encoding else targets[|targets| - 1])
    decreases |targets|
  {
    if targets == [] {
    } else {
      TranscodePreservesMeaning(p, b, content, targets[0]);
      TranscodingsPreserveMeaning(p, Transcode(p, b, targets[0]).value, content, targets[1..]);
    }
  }

  // ----- Canonical blobs ---------------------------------------------------

  /** The blob the server itself makes for some content. */
  function Canonical(p: Primitives, content: Bytes, encoding: StorageEncoding): Blob {
    EncodedBlob(if encoding == Zstd then p.compress(content) else content, encoding, |content|)
  }

  /** Transcoding a server-made blob yields the server-made blob of the target encoding: the
      stored encoding never shows in a reply. */
  lemma TranscodeCanonical(p: Primitives, content: Bytes, encoding: StorageEncoding, target: StorageEncoding)
    requires Lawful(p)
    ensures Transcode(p, Canonical(p, content, encoding), target) ==
            if |content| <= MAX_DECOMPRESSED_BLOB_SIZE then Success(Canonical(p, content, target))
            else Failure(LimitExceeded(|content|))
    ensures |content| <= MAX_DECOMPRESSED_BLOB_SIZE ==>
              && WellFormed(p, Canonical(p, content, encoding), content)
              && IntoIdentityData(p, Canonical(p, content, encoding)) == Success(content)
  {
    if |content| <= MAX_DECOMPRESSED_BLOB_SIZE {
      BoundedDecodeIsFullDecode(p, Canonical(p, content, encoding).data, |content|);
    }
  }

  // ----- Reply encodings ---------------------------------------------------

  const RESPONSE_PRIORITY: seq<StorageEncoding> := [Zstd, Identity]

  function FirstUsable(priority: seq<StorageEncoding>, acceptable: seq<StorageEncoding>): StorageEncoding {
    if priority == [] then Identity
    else if priority[0] == Identity || priority[0] in acceptable then priority[0]
    else FirstUsable(priority[1..], acceptable)
  }

  /** The choice never depends on the stored encoding: Zstd whenever the client takes it. */
  function SelectBatchReadResponseEncoding(stored: StorageEncoding,
          acceptable: seq<StorageEncoding>): (r: StorageEncoding)
    ensures r == if Zstd in acceptable then Zstd else Identity
  {
    if stored != Identity && stored in acceptable then assert stored.Zstd?; stored
    else
      assert RESPONSE_PRIORITY[1..] == [Identity] && FirstUsable([Identity], acceptable) == Identity;
      FirstUsable(RESPONSE_PRIORITY, acceptable)
  }
}
