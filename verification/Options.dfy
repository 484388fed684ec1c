/** An optional value, standing for JavaScript's `undefined`/`null` where the
    system can be handed "nothing", and for a lookup that may miss. */
module Options {

  datatype Option<+T> = None | Some(value: T) {

    /** The value, or `default` when there is none (JavaScript's `x || default`
        for values that are never falsy). */
    function GetOr(default: T): T {
      match this
      case Some(v) => v
      case None => default
    }
  }
}
