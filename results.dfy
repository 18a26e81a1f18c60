/** Failure-compatible wrappers shared by every module of the model. */
module Results {

  datatype Option<+T> = None | Some(value: T)

  /** A Rust `Result<T, E>`; usable with `:-`, which mirrors Rust's `?`. */
  datatype Result<+T, +E> = Ok(value: T) | Err(error: E) {

    predicate IsFailure() {
      Err?
    }

    function PropagateFailure<U>(): Result<U, E>
      requires Err?
    {
      Err(error)
    }

    function Extract(): T
      requires Ok?
    {
      value
    }
  }
}

/**
 * The failures of the core. Rust reports them as `anyhow` errors or as panics;
 * the model turns every one of them into a value so that callers see it.
 */
module Errors {

  datatype Error =
    | InvalidKeyLength      // `bail!("Invalid key length")` in the 32-byte key conversions
    | SliceOutOfRange       // panic: a range index such as `&key[..32]` past the end of the buffer
    | IndexOutOfBounds      // panic: an element index such as `key[1]` past the end of a vector
    | InvalidSliceLength    // `TryFromSliceError`: a slice converted to a fixed-size array of another length
    | InvalidVerifyingKey   // the 32 bytes are not a valid Ed25519 public key
    | InvalidBase64         // the base64 decoder rejected its input
    | Unimplemented         // panic: `unimplemented!()`
    | EncryptError          // "Encrypt error"
    | DecryptError          // "Decrypt error"
    | PasswordTooShort      // "Length must be greater than 4"
    | EmptyRange            // panic: `gen_range` over an empty range
    | InvalidUtf8           // `String::from_utf8` rejected the bytes
}
