/** Result types and the cryptographic primitives, which stay arbitrary functions. */
module Primitives {
  import opened Bytes

  datatype Option<+T> = None | Some(value: T)

  datatype Result<+T, +E> = Ok(value: T) | Err(error: E) {
    predicate IsFailure() { Err? }

    function PropagateFailure<U>(): Result<U, E>
      requires Err?
    {
      Err(error)
    }

    function Extract(): T
      requires Ok?
    {
      value
    }
  }

  /** SHA-512, HMAC-SHA-512 and HKDF-SHA-512 at the two output lengths in use. */
  datatype Suite = Suite(
    sha512: Bytes -> Digest,
    hmac: (Bytes, Bytes) -> Digest,
    hkdf32: (Bytes, Bytes) -> Bytes32,
    hkdf64: (Bytes, Bytes) -> Digest)

  /** No two different members of `inputs` collide. `inputs` is always the finite
      set of strings that the computation at hand has hashed. */
  ghost predicate InjectiveOn(sha: Bytes -> Digest, inputs: set<Bytes>) {
    forall x, y :: x in inputs && y in inputs && sha(x) == sha(y) ==> x == y
  }

  function Ascii(s: string): (b: Bytes)
    ensures |b| == |s|
  {
    seq(|s|, i requires 0 <= i < |s| => (s[i] as int % 256) as byte)
  }

  function DomainLabel(suffix: string): (b: Bytes)
    ensures |b| == 11 + |suffix|
  {
    Ascii("safehub-v1:" + suffix)
  }
}
