/** Shared vocabulary: Rust's fixed-width unsigned integers and the Option/Result wrappers. */
module Base {

  /** Rust `u8`. */
  type Byte = x: int | 0 <= x < 0x100

  /** Rust `u16`. */
  type U16 = x: int | 0 <= x < 0x1_0000

  /** Rust `u32`. */
  type U32 = x: int | 0 <= x < 0x1_0000_0000

  /** Rust `u64`; `usize` is taken to be 64 bits wide. */
  type U64 = x: int | 0 <= x < 0x1_0000_0000_0000_0000

  /** Rust `usize` on a 64-bit target. */
  type USize = U64

  const U32Modulus: int := 0x1_0000_0000

  datatype Option<T> = None | Some(value: T)

  /** Rust's `Result`; `IsFailure`/`PropagateFailure`/`Extract` let `:-` play the role of `?`. */
  datatype Result<T, E> = Ok(value: T) | Err(error: E) {

    predicate IsFailure() {
      Err?
    }

    function PropagateFailure<U>(): Result<U, E>
      requires Err?
    {
      Err(error)
    }

    function Extract(): T
      requires Ok?
    {
      value
    }

    /** Applies `f` to a success value and leaves an error untouched. */
    function MapOk<U>(f: T -> U): (r: Result<U, E>)
      ensures r.Ok? <==> Ok?
      ensures Ok? ==> r.value == f(value)
      ensures Err? ==> r.error == error
    {
      match this
      case Ok(v) => Ok(f(v))
      case Err(e) => Err(e)
    }
  }
}
