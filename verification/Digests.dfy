/** The digest gate every CAS upload passes. */
module Digests {
  import opened Wrappers
  import opened Primitives
  import opened BlobStore

  datatype DigestError =
    | NegativeSize
    | SizeMismatch(expected: nat, actual: nat)
    | HashMismatch(expectedHash: string, actualHash: string)

  /** UNKNOWN = 0 falls back to SHA-256 = 1; every other value, known or not, is refused. */
  function ResolveProtoValue(value: Int32): (r: Option<DigestAlgorithm>)
    ensures r == Some(Sha256) <==> value == 0 || value == 1
  {
    if value == 0 || value == 1 then Some(Sha256) else None
  }

  function AlgorithmFromName(name: string): (r: Option<DigestAlgorithm>)
    ensures r == Some(Sha256) <==> name == "sha256"
  {
    if name == "sha256" then Some(Sha256) else None
  }

  function HashBytes(p: Primitives, algorithm: DigestAlgorithm, data: Bytes): (hash: string)
    ensures algorithm == Sha256 ==> hash == p.sha256(data)
  {
    match algorithm
    case Sha256 => p.sha256(data)
  }

  function Validate(p: Primitives, algorithm: DigestAlgorithm, hash: string, size: Int64,
          data: Bytes): (r: Result<(), DigestError>)
    ensures r.Success? <==> size == |data| && hash == HashBytes(p, algorithm, data)
    ensures size < 0 ==> r == Failure(NegativeSize)
  {
    if size < 0 then Failure(NegativeSize)
    else if |data| != size then Failure(SizeMismatch(size, |data|))
    else
      var actual := HashBytes(p, algorithm, data);
      if actual != hash then Failure(HashMismatch(hash, actual)) else Success(())
  }
}
