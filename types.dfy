/** The record that a shared link carries, and the two modes of the page (types.ts). */
module Types {

  datatype Option<+T> = None | Some(value: T) {
    function GetOr(default: T): T {
      match this
      case Some(v) => v
      case None => default
    }
  }

  /** RawPayload: the script, an optional password, and the creation time in epoch milliseconds.
      `password == None` is the TypeScript `undefined`. */
  datatype RawPayload = RawPayload(code: string, password: Option<string>, timestamp: int)

  /** ViewMode: the page either composes a new link or views a decoded one. */
  datatype ViewMode = Create | View
}
