/**
 * Failure-carrying values shared by every day's model: `Option` for the
 * places where the Rust code returns `Option` or turns a parse error into
 * "nothing", `Result` for the `anyhow::Result` returns of the parsers.
 */
module Wrappers {

  datatype Option<+T> = None | Some(value: T) {
    function GetOr(default: T): T {
      match this
      case Some(v) => v
      case None => default
    }
  }

  /** The error of a failed parse; the message mirrors the `anyhow` context of the source. */
  datatype Result<+T> = Ok(value: T) | Err(msg: string)
}
