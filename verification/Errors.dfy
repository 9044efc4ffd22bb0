// Results and errors (src/error.rs), and the machine integer ranges the crate uses.

module Errors {
  const U32_LIMIT: nat := 0x1_0000_0000
  const U64_LIMIT: nat := 0x1_0000_0000_0000_0000

  type u16 = x: nat | x < 0x1_0000
  type u32 = x: nat | x < U32_LIMIT
  type u64 = x: nat | x < U64_LIMIT
  type usize = x: nat | x < U64_LIMIT // 64-bit targets

  type byte = bv8

  /** A Rust `String` or a Cap'n Proto `Text`, as its bytes. */
  type Text = seq<byte>

  /** What the source tells apart by the text of `AptpError::Internal`. */
  datatype InternalReason =
    | SinkClosed
    | UnknownSession
    | HandshakeNotCompleted
    | NoActiveSession
    | BadText
    | BadStatus
    | DecodeFailed
    | LogitsMissing

  /** The error variants the modelled code returns. `Panicked` stands for a Rust panic (an index
      out of range, a division by zero), which is no value of the source's type but is an outcome
      that callers see. */
  datatype AptpError =
    | Rpc
    | NotInSchema
    | HandshakeRejected(reason: Text)
    | OffManifold(l2: real, cosine: real)
    | ProvenanceMismatch
    | IncompatibleDimensions(src: u32, dst: u32)
    | Config
    | Internal(why: InternalReason)
    | Panicked

  datatype Option<+T> = None | Some(value: T)

  datatype Result<+T> = Ok(value: T) | Err(error: AptpError) {
    predicate IsFailure() {
      Err?
    }

    function PropagateFailure<U>(): Result<U>
      requires Err?
    {
      Err(error)
    }

    function Extract(): T
      requires Ok?
    {
      value
    }
  }

  /** Rust's `n as u32`. */
  function AsU32(n: nat): u32 {
    n % U32_LIMIT
  }

  lemma ProductAtMost(a: nat, b: nat, c: nat)
    requires a <= c && b <= c
    ensures 0 <= a * b <= c * c
  {
    assert (c - a) * b >= 0 && c * (c - b) >= 0;
    assert (c - a) * b == c * b - a * b && c * (c - b) == c * c - c * b;
  }

  lemma ProductOfU32(a: u32, b: u32)
    ensures 0 <= a * b < U64_LIMIT
  {
    ProductAtMost(a, b, U32_LIMIT - 1);
  }
}
