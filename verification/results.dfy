/** How the model reports an absent attribute and the error paths of the
    program (dialogs cancelled, checks that fail, exceptions). */
module Results {

  /** A field of a record that may be missing or `null` in the JSON. */
  datatype Option<T> = None | Some(value: T) {

    /** What `get(field, fallback)` reads: the field, else the fallback. */
    function GetOr(fallback: T): T {
      if Some? then value else fallback
    }
  }

  /** An operation either succeeds with a value or stops with an error and
      changes nothing. */
  datatype Result<T, E> = Ok(value: T) | Err(error: E)
}
