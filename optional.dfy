/** An optional value: a GraphQL argument that may be absent or null, a
    resolver result that may be `nil`, a JavaScript value that may be `null`. */
module Optional {

  datatype Option<+T> = None | Some(value: T) {

    /** The wrapped value, or `default` when there is none. */
    function GetOr(default: T): T {
      match this
      case Some(v) => v
      case None => default
    }
  }
}
