/** The wire messages the three services exchange, with the fields the code never looks
    at folded into one opaque `rest`, and the error codes of their replies. */
module Messages {
  import opened Wrappers

  /** The gRPC status codes the handlers produce. */
  datatype Code = Ok | InvalidArgument | NotFound | FailedPrecondition | OutOfRange | Unimplemented | Internal
                | Transport(status: int)

  datatype Digest = Digest(hash: string, sizeBytes: Int64)

  datatype OutputFile = OutputFile(digest: Option<Digest>, rest: Bytes)
  datatype OutputDirectory = OutputDirectory(treeDigest: Option<Digest>, rest: Bytes)
  datatype ActionResult = ActionResult(
    outputFiles: seq<OutputFile>,
    outputDirectories: seq<OutputDirectory>,
    stdoutDigest: Option<Digest>,
    stderrDigest: Option<Digest>,
    rest: Bytes)

  datatype FileNode = FileNode(digest: Option<Digest>, rest: Bytes)
  datatype Directory = Directory(files: seq<FileNode>, rest: Bytes)
  datatype Tree = Tree(root: Option<Directory>, children: seq<Directory>)

  datatype Action = Action(commandDigest: Option<Digest>, rest: Bytes)

  /** One message of a ByteStream write. */
  datatype WriteChunk = WriteChunk(resourceName: string, writeOffset: Int64, finishWrite: bool, data: Bytes)

  /** A client stream: its messages, then either a regular end or a transport error. */
  datatype WriteStream = WriteStream(chunks: seq<WriteChunk>, broken: Option<int>)

  datatype UploadItem = UploadItem(digest: Option<Digest>, data: Bytes, compressor: Int32)
  datatype UploadResponse = UploadResponse(digest: Option<Digest>, status: Code)
  datatype ReadResponse = ReadResponse(digest: Digest, data: Bytes, compressor: Int32, status: Code)
}
