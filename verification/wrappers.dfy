/** The optional-value datatype: an omitted (`undefined`) field, or a `null` result. */
module Wrappers {

  /** `None` stands for an absent value. */
  datatype Option<+T> = None | Some(value: T) {

    /** The value, or `default` when it is absent (a default that applies to an omitted field). */
    function GetOr(default: T): T
    {
      match this
      case Some(v) => v
      case None => default
    }
  }
}
