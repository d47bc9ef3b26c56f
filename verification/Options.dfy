/** The stock result shapes shared by the modules of this project. */
module Options {

  datatype Option<+T> = None | Some(value: T) {
    /** The wrapped value, or the given default. */
    function GetOr(default: T): T {
      match this
      case Some(v) => v
      case None => default
    }
  }

  /** A Python call that either returns a value or raises ValueError. */
  datatype Result<+T, +E> = Ok(value: T) | Err(error: E)
}
