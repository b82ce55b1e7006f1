/** An optional value: the model of a JavaScript property that may be
    `undefined`. */
module Options {

  datatype Option<+T> = None | Some(value: T) {

    /** The value, or `fallback` when absent: JavaScript's `x ?? fallback`. */
    function OrElse(fallback: T): T {
      match this
      case Some(v) => v
      case None => fallback
    }
  }
}
