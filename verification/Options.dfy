module Options {
  datatype Option<+T> = None | Some(value: T) {
    /** A pointer with a default for nil. */
    function Or(default: T): T {
      if Some? then value else default
    }
  }
}
