/** Option and Result: the model's stand-ins for `null`/`undefined` and for thrown errors. */
module Wrappers {

  datatype Option<+T> = None | Some(value: T) {
    /** `x ?? d` */
    function GetOr(default: T): T {
      match this
      case Some(v) => v
      case None => default
    }
  }

  /** `Err(message)` stands for `throw new Error(message)`. */
  datatype Result<+T> = Ok(value: T) | Err(message: string)
}
