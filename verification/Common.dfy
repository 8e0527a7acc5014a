/** The conventional Some/None datatype, and the outcome of a call that may throw. */
module Common {
  datatype Option<+T> = None | Some(value: T) {
    function GetOr(default: T): T {
      if Some? then value else default
    }
  }

  datatype Result<+T, +E> = Ok(value: T) | Err(error: E)

  /** An optional field of a PATCH body: left out, explicitly null, or given. */
  datatype Patch<+T> = Absent | Null | Given(value: T)
}
