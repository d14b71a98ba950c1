/** Failure-carrying values shared by every module: the Go code returns
    `(value, error)` pairs or a bare `error`, modelled here as `Result` and
    `Outcome`; an optional column or a map lookup is an `Option`. */
module Wrappers {

  datatype Option<T> = None | Some(value: T)

  /** A Go `(T, error)` pair: `Err` carries the error's message. */
  datatype Result<T> = Ok(value: T) | Err(msg: string)

  /** A Go function that returns only an `error`. */
  datatype Outcome = Pass | Fail(msg: string)
}

/** Go's fixed-width integers, written out: Dafny's `int` is unbounded. */
module Ints {

  const Two32: int := 0x1_0000_0000
  const Two63: int := 0x8000_0000_0000_0000
  const Two64: int := 0x1_0000_0000_0000_0000
  const MinInt64: int := -Two63
  const MaxInt64: int := Two63 - 1

  /** Go's `int` and `int64` on a 64-bit platform. */
  type Int64 = x: int | MinInt64 <= x <= MaxInt64

  /** A Go `uint64` value. */
  type UInt64 = x: int | 0 <= x < Two64

  /** `uint32(x)` of a Go integer: keeps the low 32 bits. */
  function UInt32Of(x: int): (r: int)
    ensures 0 <= r < Two32
    ensures (x - r) % Two32 == 0
  {
    x % Two32
  }

  /** `int64(u)` of a `uint64`: the two's-complement reinterpretation. */
  function Int64Of(u: UInt64): (r: Int64)
    ensures u < Two63 ==> r == u
    ensures u >= Two63 ==> r == u - Two64 && r < 0
  {
    if u < Two63 then u else u - Two64
  }
}
