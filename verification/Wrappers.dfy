/** An optional value, for what the program may or may not have. */
module Wrappers {
  datatype Option<+T> = None | Some(value: T) {
    function GetOr(default: T): T {
      match this
      case Some(v) => v
      case None => default
    }
  }

  /** An empty text counts as none. */
  function NonEmpty(text: Option<string>): Option<string> {
    if text == Some("") then None else text
  }
}
