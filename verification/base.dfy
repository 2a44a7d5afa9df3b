/** Values shared by every part of the bot: Python's `None`, a call that may
    raise, Python truthiness of an optional string, and the route return value
    `MSG_RETURN`. */
module Base {

  /** A value that may be Python's `None`. */
  datatype Option<+T> = None | Some(value: T)

  /** The outcome of a Python call whose exception is not caught: it either
      returns a value or raises (the exception's class is not modelled). */
  datatype Exec<+T> = Returns(value: T) | Raises

  /** Python truthiness of a `str` that may be `None`: `None` and `''` are falsy. */
  predicate Truthy(s: Option<string>) {
    s.Some? && s.value != ""
  }

  /** How an f-string renders a `str` that may be `None`. */
  function PyStr(s: Option<string>): string {
    match s
    case Some(v) => v
    case None => "None"
  }

  /** `MSG_RETURN(type, data)`: what a route asks the bot to send. The type is a
      free string ("text", "notice", "html", "image", "reaction", "skip", or
      anything else a handler returns). */
  datatype MsgReturn = MsgReturn(kind: string, data: Option<string>)
}
