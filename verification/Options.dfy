/** The optional values shared by every module of the model. */
module Options {
  datatype Option<+T> = None | Some(value: T) {
    /** The value, or `default` when there is none (`a ?? default`). */
    function GetOr(default: T): T {
      if Some? then value else default
    }
  }
}
