/**
 Types shared by every module: the optional string of a nullable C pointer, and the
 error codes of include/knishio/error/context.h that the modelled functions return.
 */
module Basics {

  datatype Option<+T> = None | Some(value: T)

  /** A nullable C string. */
  type Text = Option<string>

  datatype Error =
    | Ok
    | InvalidArgs
    | InvalidState
    | InvalidJson
    | MemoryError
    | CryptoError
    | AtomsMissing
    | SignatureMalformed
    | SignatureMismatch
    | BalanceInsufficient
    | TransferBalance

  datatype Result<+T> = Success(value: T) | Failure(error: Error)

  const INT_MAX: int := 0x7fff_ffff

  /** The terminator of a C string. */
  const NUL := '\0'

  /** The range of a C int. */
  predicate IsInt(x: int) {
    -INT_MAX - 1 <= x <= INT_MAX
  }

  /** The text a NULL or present C string contributes where NULL reads as "". */
  function OrEmpty(t: Text): string {
    if t.Some? then t.value else ""
  }

  /** An optional string that serialises to null when it is absent or empty. */
  function NonEmpty(t: Text): Text {
    if t.Some? && t.value != "" then t else None
  }

  // Facts about sequences, each on its own so that a proof takes only what it needs.

  lemma {:induction false} TakeOne<T>(s: seq<T>, i: nat)
    requires i < |s|
    ensures s[..i + 1] == s[..i] + [s[i]]
  {
  }

  lemma {:induction false} TakeDrop<T>(s: seq<T>, i: nat)
    requires i <= |s|
    ensures s[..i] + s[i..] == s
  {
  }

  lemma {:induction false} Associate<T>(a: seq<T>, b: seq<T>, c: seq<T>)
    ensures a + b + c == a + (b + c)
  {
  }
}
