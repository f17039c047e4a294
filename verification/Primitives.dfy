/** The library code the server calls: SHA-256 (FIPS 180-4), Zstandard (RFC 8878) and the
    protobuf codec. They are parameters of the model; what is assumed of them is `Lawful`,
    and ToyPrimitives exhibits an instance. */
module Primitives {
  import opened Wrappers
  import opened Messages

  const EMPTY_SHA256 := "e3b0c44298fc1c149afbf4c8996fb92427ae41e4649b934ca495991b7852b855"

  /** Everything a decoder delivers for one input: its bytes, then end of stream or an error. */
  datatype Decoding = Decoding(bytes: Bytes, complete: bool)

  datatype Primitives = Primitives(
    sha256: Bytes -> string,
    compress: Bytes -> Bytes,
    decoder: Bytes -> Decoding,
    encodeResult: ActionResult -> Bytes,
    decodeResult: Bytes -> Option<ActionResult>,
    decodeAction: Bytes -> Option<Action>,
    decodeTree: Bytes -> Option<Tree>)

  ghost predicate Lawful(p: Primitives) {
    && p.sha256([]) == EMPTY_SHA256
    && (forall d :: p.decoder(p.compress(d)) == Decoding(d, true))
    && (forall r :: p.decodeResult(p.encodeResult(r)) == Some(r))
  }

  /** No two of these byte strings share a hash. */
  ghost predicate CollisionFree(p: Primitives, contents: set<Bytes>) {
    forall a, b | a in contents && b in contents && p.sha256(a) == p.sha256(b) :: a == b
  }

  /** Decoding without any bound on the output. */
  function FullDecode(p: Primitives, data: Bytes): Option<Bytes> {
    var decoding := p.decoder(data);
    if decoding.complete then Some(decoding.bytes) else None
  }
}
