// Vocabulary shared by every module: bytes, results and the error codes of the repository.
module Base {

  newtype Byte = b: int | 0 <= b < 256

  type Bytes = seq<Byte>

  datatype ErrorCode =
    | InvalidArgument
    | OutOfRange
    | LimitExceeded
    | ArithmeticOverflow
    | NotFound
    | AlreadyExists
    | Conflict
    | PreconditionFailed
    | Unsupported
    | VersionMismatch
    | IntegrityFailure
    | IoError
    | Cancelled
    | ShuttingDown
    | QueueFull
    | ProtocolError

  // A value or the code of the error that prevented it.
  datatype Result<+T> = Ok(value: T) | Err(error: ErrorCode)

  datatype Option<+T> = None | Some(value: T)

  function Min(a: int, b: int): int { if a <= b then a else b }

  function Max(a: int, b: int): int { if a <= b then b else a }

  // The first so many of a list, or all of a shorter one.
  function Prefix<T>(s: seq<T>, bound: nat): seq<T> { if |s| > bound then s[..bound] else s }

  lemma SubsetSize<T>(a: set<T>, b: set<T>)
    requires a <= b
    ensures |a| <= |b|
  {
    assert b == a + (b - a);
  }

  lemma Regroup<T>(a: seq<T>, b: seq<T>, c: seq<T>)
    ensures a + (b + c) == (a + b) + c
  {
  }

  lemma OneMore<T>(s: seq<T>, i: nat)
    requires i < |s|
    ensures s[..i + 1] == s[..i] + [s[i]]
  {
  }

  // The concatenation of a list of byte strings, first to last.
  function Flatten(parts: seq<Bytes>): Bytes {
    if parts == [] then [] else parts[0] + Flatten(parts[1..])
  }
}
