/** What a ByteStream write accepts and what a ByteStream read delivers. */
module ByteStreams {
  import opened Wrappers
  import opened Messages
  import opened Primitives
  import opened BlobStore
  import opened BlobCodec
  import opened ResourceNames
  import Uploads
  import Digests

  const READ_CHUNK_SIZE: nat := 64 * 1024

  function EncodingOf(compression: Compression): (r: Result<StorageEncoding, Code>)
    ensures r == Success(Identity) <==> compression == Plain
    ensures r == Success(Zstd) <==> compression == Named("zstd")
    ensures r.Failure? ==> r.error == Unimplemented
  {
    match compression
    case Plain => Success(Identity)
    case Named(name) => if name == "zstd" then Success(Zstd) else Failure(Unimplemented)
  }

  // ----- Write -------------------------------------------------------------

  /** The name of the stream's first message and what it parses to. */
  datatype Begun = Begun(name: string, resource: Resource)
  datatype Received = Received(resource: Resource, data: Bytes)
  datatype Commit = Commit(key: BlobKey, blob: Blob, committedSize: nat)

  function CheckName(name: string, begun: Option<Begun>): Result<Begun, Code> {
    match begun
    case Some(o) => if name != "" && name != o.name then Failure(InvalidArgument) else Success(o)
    case None =>
      if name == "" || Parse(name).Failure? || Parse(name).value.uploadId.None? then Failure(InvalidArgument)
      else Success(Begun(name, Parse(name).value))
  }

  /** The messages from index `next` on. */
  function Receive(stream: WriteStream, next: nat, accumulated: Bytes, begun: Option<Begun>): Result<Received, Code>
    requires next <= |stream.chunks|
    decreases |stream.chunks| - next
  {
    if next == |stream.chunks| then
      Failure(if stream.broken.Some? then Transport(stream.broken.value) else InvalidArgument)
    else
      var chunk := stream.chunks[next];
      if chunk.writeOffset != AsInt64(|accumulated|) then Failure(InvalidArgument)
      else
        var now :- CheckName(chunk.resourceName, begun);
        var data := accumulated + chunk.data;
        if chunk.finishWrite then Success(Received(now.resource, data))
        else Receive(stream, next + 1, data, Some(now))
  }

  function CommitReceived(p: Primitives, received: Received): Result<Commit, Code> {
    var resource := received.resource;
    match ResolveBlobKey(resource)
    case None => Failure(InvalidArgument)
    case Some(key) =>
      var encoding :- EncodingOf(resource.compression);
      if resource.expectedSize < 0 then Failure(InvalidArgument)
      else if |received.data| > I64_MAX then Failure(Internal)
      else
        var stored :- Uploads.Admit(p, key.algorithm, resource.hash, resource.expectedSize, received.data, encoding);
        Success(Commit(key, stored, |received.data|))
  }

  /** All of a write up to its put. */
  function WriteOutcome(p: Primitives, stream: WriteStream): Result<Commit, Code> {
    var received :- Receive(stream, 0, [], None);
    CommitReceived(p, received)
  }

  /** The data of the first n messages. */
  function Payload(chunks: seq<WriteChunk>, n: nat): Bytes
    requires n <= |chunks|
  {
    if n == 0 then [] else Payload(chunks, n - 1) + chunks[n - 1].data
  }

  /** The first message with `finish_write`, or the number of messages. */
  function FirstFinish(chunks: seq<WriteChunk>): (n: nat)
    ensures n <= |chunks|
    ensures forall i | 0 <= i < n :: !chunks[i].finishWrite
    ensures n < |chunks| ==> chunks[n].finishWrite
  {
    if chunks == [] || chunks[0].finishWrite then 0 else 1 + FirstFinish(chunks[1..])
  }

  predicate InOrder(chunks: seq<WriteChunk>, n: nat)
    requires n <= |chunks|
  {
    forall i | 0 <= i < n :: chunks[i].writeOffset == AsInt64(|Payload(chunks, i)|)
  }

  predicate NamedOnce(chunks: seq<WriteChunk>, n: nat, name: string)
    requires n <= |chunks|
  {
    && name != ""
    && (n > 0 ==> chunks[0].resourceName == name)
    && (forall i | 0 < i < n :: chunks[i].resourceName == "" || chunks[i].resourceName == name)
  }

  predicate IsUpload(name: string) {
    Parse(name).Success? && Parse(name).value.uploadId.Some?
  }

  /** The first n messages keep the rules of offsets and names. */
  predicate Ruly(chunks: seq<WriteChunk>, n: nat)
    requires n <= |chunks|
  {
    && InOrder(chunks, n)
    && (n > 0 ==> NamedOnce(chunks, n, chunks[0].resourceName) && IsUpload(chunks[0].resourceName))
  }

  predicate KeepsTheRules(stream: WriteStream) {
    var last := FirstFinish(stream.chunks);
    last < |stream.chunks| && Ruly(stream.chunks, last + 1)
  }

  /** What the receiver knows of the name after n ruly messages. */
  function BegunBy(chunks: seq<WriteChunk>, n: nat): Option<Begun>
    requires n <= |chunks| && Ruly(chunks, n)
  {
    if n == 0 then None else Some(Begun(chunks[0].resourceName, Parse(chunks[0].resourceName).value))
  }

  lemma InOrderStep(chunks: seq<WriteChunk>, n: nat)
    requires n < |chunks|
    ensures InOrder(chunks, n + 1) <==> InOrder(chunks, n) && chunks[n].writeOffset == AsInt64(|Payload(chunks, n)|)
  {
    hide AsInt64, Payload;
  }

  lemma NamedOnceStep(chunks: seq<WriteChunk>, n: nat, name: string)
    requires 0 < n < |chunks|
    ensures NamedOnce(chunks, n + 1, name) <==>
            NamedOnce(chunks, n, name) && (chunks[n].resourceName == "" || chunks[n].resourceName == name)
  {
  }

  lemma RulyStep(chunks: seq<WriteChunk>, n: nat)
    requires n < |chunks| && Ruly(chunks, n)
    ensures var begun := CheckName(chunks[n].resourceName, BegunBy(chunks, n));
            && (Ruly(chunks, n + 1) <==> chunks[n].writeOffset == AsInt64(|Payload(chunks, n)|) && begun.Success?)
            && (Ruly(chunks, n + 1) ==> Some(begun.value) == BegunBy(chunks, n + 1))
            && (begun.Failure? ==> begun.error == InvalidArgument)
  {
    InOrderStep(chunks, n);
    hide Parse, AsInt64, InOrder, Payload;
    if n == 0 {
    } else {
      NamedOnceStep(chunks, n, chunks[0].resourceName);
      hide NamedOnce, IsUpload;
    }
  }

  lemma RulyPrefix(chunks: seq<WriteChunk>, n: nat, m: nat)
    requires n <= m <= |chunks| && Ruly(chunks, m)
    ensures Ruly(chunks, n)
  {
    hide IsUpload, AsInt64;
  }

  lemma {:induction false} ReceiveFrom(stream: WriteStream, next: nat)
    requires next <= FirstFinish(stream.chunks) && Ruly(stream.chunks, next)
    ensures var r := Receive(stream, next, Payload(stream.chunks, next), BegunBy(stream.chunks, next));
            r.Success? <==> KeepsTheRules(stream)
    ensures KeepsTheRules(stream) ==>
              Receive(stream, next, Payload(stream.chunks, next), BegunBy(stream.chunks, next)) ==
              Success(Received(Parse(stream.chunks[0].resourceName).value,
                               Payload(stream.chunks, FirstFinish(stream.chunks) + 1)))
    ensures !KeepsTheRules(stream) ==>
              var broke := FirstFinish(stream.chunks) == |stream.chunks| && Ruly(stream.chunks, |stream.chunks|);
              Receive(stream, next, Payload(stream.chunks, next), BegunBy(stream.chunks, next)) ==
              Failure(if broke && stream.broken.Some? then Transport(stream.broken.value) else InvalidArgument)
    decreases |stream.chunks| - next
  {
    hide Parse, CheckName, AsInt64, Ruly;
    var last := FirstFinish(stream.chunks);
    if next == |stream.chunks| {
    } else {
      RulyStep(stream.chunks, next);
      if !Ruly(stream.chunks, next + 1) {
        if last < |stream.chunks| && Ruly(stream.chunks, last + 1) {
          RulyPrefix(stream.chunks, next + 1, last + 1);
        } else if Ruly(stream.chunks, |stream.chunks|) {
          RulyPrefix(stream.chunks, next + 1, |stream.chunks|);
        }
      } else if next < last {
        ReceiveFrom(stream, next + 1);
      }
    }
  }

  lemma {:induction false} PayloadGrows(chunks: seq<WriteChunk>, i: nat, n: nat)
    requires i <= n <= |chunks|
    ensures |Payload(chunks, i)| <= |Payload(chunks, n)|
    decreases n
  {
    if i == n {
    } else {
      PayloadGrows(chunks, i, n - 1);
    }
  }

  /** The data of the messages, one after the other. */
  lemma {:induction false} PayloadAt(chunks: seq<WriteChunk>, n: nat, i: nat, k: nat)
    requires i < n <= |chunks| && k < |chunks[i].data|
    ensures |Payload(chunks, i)| + k < |Payload(chunks, n)|
    ensures Payload(chunks, n)[|Payload(chunks, i)| + k] == chunks[i].data[k]
    decreases n
  {
    if i == n - 1 {
    } else {
      PayloadAt(chunks, n - 1, i, k);
    }
  }

  /** What data sent under a `blobs` name, or under a `compressed-blobs/zstd` name, stands for:
      itself, or what it decompresses to. Under any other name it stands for nothing. */
  function Conveyed(p: Primitives, compression: Compression, data: Bytes): Option<Bytes> {
    if compression == Plain then Some(data)
    else if compression == Named("zstd") then FullDecode(p, data)
    else None
  }

  lemma ConveyedMeans(p: Primitives, compression: Compression, data: Bytes)
    ensures var encoding := EncodingOf(compression);
            Conveyed(p, compression, data) == if encoding.Success? then Decoded(p, data, encoding.value) else None
  {
  }

  /** The content has the size and the hash its name gives, and at most 100 MiB. */
  predicate IsOf(p: Primitives, resource: Resource, content: Option<Bytes>) {
    content.Some? && |content.value| == resource.expectedSize <= 104_857_600 && p.sha256(content.value) == resource.hash
  }

  /** The terms a write must meet, said without running it. */
  predicate Acceptable(p: Primitives, stream: WriteStream) {
    var last := FirstFinish(stream.chunks);
    && last < |stream.chunks|
    && (forall i | 0 <= i <= last :: stream.chunks[i].writeOffset == |Payload(stream.chunks, i)|)
    && NamedOnce(stream.chunks, last + 1, stream.chunks[0].resourceName)
    && IsUpload(stream.chunks[0].resourceName)
    && var resource, data := Parse(stream.chunks[0].resourceName).value, Payload(stream.chunks, last + 1);
       |data| <= 0x7fff_ffff_ffff_ffff && IsOf(p, resource, Conveyed(p, resource.compression, data))
  }

  /** The code of a stream that is not acceptable: the client's own error status if its stream broke
      off while it kept the rules; Unimplemented for a compressor other than zstd. */
  function RefusalCode(stream: WriteStream): Code {
    var last := FirstFinish(stream.chunks);
    if KeepsTheRules(stream) then
      var compression := Parse(stream.chunks[0].resourceName).value.compression;
      if compression != Plain && compression != Named("zstd") then Unimplemented
      else if |Payload(stream.chunks, last + 1)| > 0x7fff_ffff_ffff_ffff then Internal
      else InvalidArgument
    else if last == |stream.chunks| && Ruly(stream.chunks, last) && stream.broken.Some?
    then Transport(stream.broken.value)
    else InvalidArgument
  }

  lemma AcceptableMeans(p: Primitives, stream: WriteStream)
    ensures var last := FirstFinish(stream.chunks);
            Acceptable(p, stream) <==>
            && KeepsTheRules(stream) && |Payload(stream.chunks, last + 1)| <= I64_MAX
            && var resource := Parse(stream.chunks[0].resourceName).value;
               IsOf(p, resource, Conveyed(p, resource.compression, Payload(stream.chunks, last + 1)))
  {
    hide IsOf, Conveyed, Parse, NamedOnce, IsUpload, InOrder, Payload;
    var last := FirstFinish(stream.chunks);
    if last < |stream.chunks| && |Payload(stream.chunks, last + 1)| <= I64_MAX {
      OffsetsAreLengths(stream.chunks, last + 1);
    }
  }

  /** Up to the i64 maximum a length cast to i64 is the length. */
  lemma OffsetsAreLengths(chunks: seq<WriteChunk>, n: nat)
    requires n <= |chunks| && |Payload(chunks, n)| <= I64_MAX
    ensures InOrder(chunks, n) <==> forall i | 0 <= i < n :: chunks[i].writeOffset == |Payload(chunks, i)|
  {
    forall i | 0 <= i < n
      ensures AsInt64(|Payload(chunks, i)|) == |Payload(chunks, i)|
    {
      PayloadGrows(chunks, i, n);
    }
  }

  /** What becomes of a received upload, by its name and data alone. */
  lemma CommitOutcome(p: Primitives, received: Received)
    requires Lawful(p) && WellFormedResource(received.resource)
    ensures var resource, data := received.resource, received.data;
            var content := Conveyed(p, resource.compression, data);
            CommitReceived(p, received) ==
            if resource.compression != Plain && resource.compression != Named("zstd") then Failure(Unimplemented)
            else if |data| > 0x7fff_ffff_ffff_ffff then Failure(Internal)
            else if IsOf(p, resource, content)
            then Success(Commit(BlobKey(resource.instance, Sha256, resource.hash, ContentAddressableStorage),
                                Canonical(p, content.value, Zstd), |data|))
            else Failure(InvalidArgument)
  {
    var resource, data := received.resource, received.data;
    ConveyedMeans(p, resource.compression, data);
    hide Conveyed, Uploads.Admit, Canonical, Decoded;
    if EncodingOf(resource.compression).Success? {
      Uploads.AdmittedExactlyWhenGenuine(p, Sha256, resource.hash, resource.expectedSize, data,
                                         EncodingOf(resource.compression).value);
    }
  }

  /** A write succeeds exactly on the acceptable streams; it then commits, under the named
      key, the content the concatenated data stands for, and reports the data's length. */
  lemma WriteAcceptedExactlyWhenAcceptable(p: Primitives, stream: WriteStream)
    requires Lawful(p)
    ensures WriteOutcome(p, stream).Success? <==> Acceptable(p, stream)
    ensures Acceptable(p, stream) ==>
              var resource := Parse(stream.chunks[0].resourceName).value;
              var data := Payload(stream.chunks, FirstFinish(stream.chunks) + 1);
              var content := Conveyed(p, resource.compression, data).value;
              WriteOutcome(p, stream).value ==
              Commit(BlobKey(resource.instance, Sha256, resource.hash, ContentAddressableStorage),
                     Canonical(p, content, Zstd), |data|)
    ensures !Acceptable(p, stream) ==> WriteOutcome(p, stream).error == RefusalCode(stream)
  {
    hide WriteOutcome, CommitReceived, Canonical, Acceptable, KeepsTheRules, Parse, Payload, FullDecode;
    AcceptableMeans(p, stream);
    WriteDecided(p, stream);
    if KeepsTheRules(stream) {
      RuledName(stream);
      var resource := Parse(stream.chunks[0].resourceName).value;
      ParsedIsWellFormed(stream.chunks[0].resourceName);
      CommitOutcome(p, Received(resource, Payload(stream.chunks, FirstFinish(stream.chunks) + 1)));
    }
  }

  lemma RuledName(stream: WriteStream)
    requires KeepsTheRules(stream)
    ensures FirstFinish(stream.chunks) < |stream.chunks| && IsUpload(stream.chunks[0].resourceName)
  {
    hide IsUpload;
  }

  lemma WriteDecided(p: Primitives, stream: WriteStream)
    ensures WriteOutcome(p, stream) ==
            if KeepsTheRules(stream)
            then CommitReceived(p, Received(Parse(stream.chunks[0].resourceName).value,
                                            Payload(stream.chunks, FirstFinish(stream.chunks) + 1)))
            else Failure(RefusalCode(stream))
  {
    ReceiveFrom(stream, 0);
    hide Receive, CommitReceived, Parse, KeepsTheRules, Ruly, Payload;
  }

  /** Messages after the first finishing one, and how the stream ends, do not matter. */
  lemma {:induction false} LaterMessagesAreIgnored(p: Primitives, stream: WriteStream, other: WriteStream, next: nat,
          accumulated: Bytes, begun: Option<Begun>)
    requires var last := FirstFinish(stream.chunks);
             && next <= last < |stream.chunks| && last < |other.chunks|
             && other.chunks[..last + 1] == stream.chunks[..last + 1]
    ensures Receive(stream, next, accumulated, begun) == Receive(other, next, accumulated, begun)
    ensures next == 0 && accumulated == [] && begun == None ==> WriteOutcome(p, stream) == WriteOutcome(p, other)
    decreases |stream.chunks| - next
  {
    hide CheckName, AsInt64, CommitReceived;
    var last := FirstFinish(stream.chunks);
    var chunk := stream.chunks[next];
    assert chunk == stream.chunks[..last + 1][next] == other.chunks[..last + 1][next] == other.chunks[next];
    var now := CheckName(chunk.resourceName, begun);
    if now.Failure? || next == last {
    } else {
      LaterMessagesAreIgnored(p, stream, other, next + 1, accumulated + chunk.data, Some(now.value));
    }
  }

  /** One way to cut `data` into messages under `name`. */
  predicate WellChunked(stream: WriteStream, name: string, data: Bytes) {
    var last := FirstFinish(stream.chunks);
    && last < |stream.chunks|
    && InOrder(stream.chunks, last + 1)
    && NamedOnce(stream.chunks, last + 1, name)
    && Payload(stream.chunks, last + 1) == data
  }

  /** How the data is cut never shows: same commit or same error. */
  lemma ChunkingDoesNotMatter(p: Primitives, stream: WriteStream, other: WriteStream, name: string, data: Bytes)
    requires WellChunked(stream, name, data) && WellChunked(other, name, data)
    ensures WriteOutcome(p, stream) == WriteOutcome(p, other)
  {
    ChunkedOutcome(p, stream, name, data);
    ChunkedOutcome(p, other, name, data);
    hide WriteOutcome, CommitReceived, WellChunked, IsUpload, Parse;
  }

  lemma ChunkedOutcome(p: Primitives, stream: WriteStream, name: string, data: Bytes)
    requires WellChunked(stream, name, data)
    ensures WriteOutcome(p, stream) ==
            if IsUpload(name) then CommitReceived(p, Received(Parse(name).value, data)) else Failure(InvalidArgument)
  {
    ReceiveFrom(stream, 0);
    hide Receive, CommitReceived, Parse, IsUpload, InOrder;
  }

  // ----- Read --------------------------------------------------------------

  datatype ReadPlan = ReadPlan(
    name: string,
    key: BlobKey,
    resource: Resource,
    encoding: StorageEncoding,
    offset: Int64,
    limit: Int64)

  /** Everything a read checks before it looks at the store. */
  function PlanRead(name: string, offset: Int64, limit: Int64): Result<ReadPlan, Code> {
    match Parse(name)
    case Failure(_) => Failure(InvalidArgument)
    case Success(resource) =>
      if resource.uploadId.Some? then Failure(InvalidArgument)
      else
        var encoding :- EncodingOf(resource.compression);
        if encoding != Identity && limit != 0 then Failure(InvalidArgument)
        else match ResolveBlobKey(resource)
          case None => Failure(InvalidArgument)
          case Some(key) => Success(ReadPlan(name, key, resource, encoding, offset, limit))
  }

  /** A read is served exactly when its name parses, is no upload name, and is plain, or is zstd and
      asks for no limit; it then asks for the named blob, in the named form. */
  lemma PlannedExactlyWhen(name: string, offset: Int64, limit: Int64)
    ensures var plan := PlanRead(name, offset, limit);
            if Parse(name).Failure? || Parse(name).value.uploadId.Some? then plan == Failure(InvalidArgument)
            else
              var r := Parse(name).value;
              var key := BlobKey(r.instance, Sha256, r.hash, ContentAddressableStorage);
              if r.compression == Plain then plan == Success(ReadPlan(name, key, r, Identity, offset, limit))
              else if r.compression != Named("zstd") then plan == Failure(Unimplemented)
              else if limit != 0 then plan == Failure(InvalidArgument)
              else plan == Success(ReadPlan(name, key, r, Zstd, offset, limit))
  {
    if Parse(name).Success? {
      ParsedIsWellFormed(name);
    }
  }

  function ReadReply(p: Primitives, plan: ReadPlan, found: Option<Blob>): Result<seq<Bytes>, Code> {
    match found
    case None => Failure(NotFound)
    case Some(blob) =>
      if plan.resource.expectedSize < 0 then Failure(InvalidArgument)
      else if blob.metadata.uncompressedSize != plan.resource.expectedSize then Failure(NotFound)
      else match IntoIdentityData(p, blob)
        case Failure(_) => Failure(Internal)
        case Success(identity) =>
          if Digests.Validate(p, plan.key.algorithm, plan.resource.hash, plan.resource.expectedSize, identity).Failure?
          then Failure(Internal)
          else Deliver(p, identity, plan.encoding, plan.offset, plan.limit)
  }

  /** Over any stored blob: absent, or of another size than the name says, is NotFound; of that size
      but undecodable, or not of the named hash, is Internal. */
  lemma UnfitBlobsAreRefused(p: Primitives, plan: ReadPlan, found: Option<Blob>)
    requires plan.resource.expectedSize >= 0
    ensures found.None? ==> ReadReply(p, plan, found) == Failure(NotFound)
    ensures found.Some? ==>
              var identity := IntoIdentityData(p, found.value);
              if found.value.metadata.uncompressedSize != plan.resource.expectedSize
              then ReadReply(p, plan, found) == Failure(NotFound)
              else if || identity.Failure? || |identity.value| != plan.resource.expectedSize
                      || p.sha256(identity.value) != plan.resource.hash
              then ReadReply(p, plan, found) == Failure(Internal)
              else ReadReply(p, plan, found) == Deliver(p, identity.value, plan.encoding, plan.offset, plan.limit)
  {
    hide IntoIdentityData, Deliver;
  }

  /** The reply chunks for a checked blob. */
  function Deliver(p: Primitives, identity: Bytes, encoding: StorageEncoding, offset: Int64,
          limit: Int64): Result<seq<Bytes>, Code> {
    if offset < 0 || offset > |identity| then Failure(OutOfRange)
    else
      var available := identity[offset..];
      if encoding == Identity then
        if limit < 0 then Failure(InvalidArgument)
        else Success(Chunks(available[..if limit == 0 then |available| else Min(limit, |available|)], READ_CHUNK_SIZE))
      else match FromIdentityData(p, available, encoding)
        case Failure(_) => Failure(Internal)
        case Success(blob) => Success(Chunks(blob.data, READ_CHUNK_SIZE))
  }

  function Chunks(data: Bytes, size: nat): seq<Bytes>
    requires size > 0
  {
    if data == [] then []
    else if |data| <= size then [data]
    else [data[..size]] + Chunks(data[size..], size)
  }

  lemma {:induction false} ChunksTile(data: Bytes, size: nat)
    requires size > 0
    ensures var chunks := Chunks(data, size);
            && Concat(chunks) == data
            && (forall i | 0 <= i < |chunks| :: 0 < |chunks[i]| <= size)
            && (forall i | 0 <= i < |chunks| - 1 :: |chunks[i]| == size)
  {
    if data == [] {
    } else if |data| <= size {
      assert Concat([data]) == data;
    } else {
      ChunksTile(data[size..], size);
      assert Chunks(data, size)[1..] == Chunks(data[size..], size);
      assert data[..size] + data[size..] == data;
    }
  }

  /** The end of the slice a read asks for; a limit of zero asks for the rest. */
  function SliceEnd(length: nat, offset: nat, limit: nat): nat {
    if limit == 0 then length else Min(offset + limit, length)
  }

  /** A read fails on a bad offset or limit only; otherwise its chunks tile exactly the slice asked
      for, and a compressed reply decodes to exactly the suffix. */
  lemma ReadDeliversTheSlice(p: Primitives, content: Bytes, encoding: StorageEncoding, offset: Int64, limit: Int64)
    requires Lawful(p) && |content| <= MAX_DECOMPRESSED_BLOB_SIZE
    ensures var r := Deliver(p, content, encoding, offset, limit);
            && (r.Success? <==> 0 <= offset <= |content| && (encoding == Identity ==> limit >= 0))
            && (r.Failure? ==> r.error == if 0 <= offset <= |content| then InvalidArgument else OutOfRange)
            && (r.Success? ==>
                  && (forall i | 0 <= i < |r.value| :: 0 < |r.value[i]| <= 65_536)
                  && (forall i | 0 <= i < |r.value| - 1 :: |r.value[i]| == 65_536)
                  && match encoding
                     case Identity =>
                       var end := SliceEnd(|content|, offset, limit);
                       offset <= end && Concat(r.value) == content[offset..end]
                     case Zstd => FullDecode(p, Concat(r.value)) == Some(content[offset..]))
  {
    if 0 <= offset <= |content| {
      var available := content[offset..];
      match encoding {
        case Identity =>
          if limit >= 0 {
            var taken := if limit == 0 then |available| else Min(limit, |available|);
            ChunksTile(available[..taken], READ_CHUNK_SIZE);
            assert available[..taken] == content[offset..SliceEnd(|content|, offset, limit)];
          }
        case Zstd =>
          TranscodeCanonical(p, available, Identity, Zstd);
          ChunksTile(p.compress(available), READ_CHUNK_SIZE);
      }
    }
  }

  /** Reads one after the other, each starting where the previous reply ended. */
  function ReadInTurn(p: Primitives, content: Bytes, offset: Int64, limits: seq<Int64>): Bytes
    decreases |limits|
  {
    if limits == [] then []
    else match Deliver(p, content, Identity, offset, limits[0])
      case Failure(_) => []
      case Success(chunks) =>
        var got := Concat(chunks);
        if offset + |got| > I64_MAX then got else got + ReadInTurn(p, content, offset + |got|, limits[1..])
  }

  /** However a client spaces its reads, the replies run on to the whole rest of the blob. */
  lemma {:induction false} ResumedReadsTile(p: Primitives, content: Bytes, offset: Int64, limits: seq<Int64>)
    requires Lawful(p) && 0 <= offset <= |content| <= MAX_DECOMPRESSED_BLOB_SIZE
    requires forall i | 0 <= i < |limits| :: limits[i] > 0
    ensures ReadInTurn(p, content, offset, limits + [0]) == content[offset..]
    decreases |limits|
  {
    var all := limits + [0];
    ReadDeliversTheSlice(p, content, Identity, offset, all[0]);
    hide Deliver, Concat;
    var got := Concat(Deliver(p, content, Identity, offset, all[0]).value);
    if limits == [] {
      assert all[1..] == [];
      assert got == content[offset..];
    } else {
      assert all[1..] == limits[1..] + [0];
      ResumedReadsTile(p, content, offset + |got|, limits[1..]);
      assert got + content[offset + |got|..] == content[offset..];
    }
  }
}
