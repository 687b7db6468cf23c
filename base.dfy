/** Types shared by every part of the model: optional values, results with an
    error, raw bytes and the exceptions the Python code raises. */
module Base {

  /** Raw byte strings, as stored by the repositories and the shelf. */
  type Bytes = seq<bv8>

  datatype Option<+T> = None | Some(value: T)

  datatype Result<+T, +E> = Ok(value: T) | Err(error: E)

  /** The Python exceptions that surface from the modelled code. */
  datatype Error =
    | NotFound          // KeyError: key not found
    | Expired           // KeyError: key has expired
    | AlreadyStored     // KeyError: key already stored
    | InvalidToken      // the cipher rejected the stored bytes
    | Undecodable       // the deserializer rejected the bytes (ValueError, UnpicklingError)
    | TypeError         // a call with the wrong arity or the wrong argument type
    | AttributeError    // an attribute that was never assigned
    | ValueError        // unpacking or dict construction on a malformed key
  {
    /** The errors that Python reports as `KeyError`. */
    predicate IsKeyError() {
      NotFound? || Expired? || AlreadyStored?
    }
  }
}
