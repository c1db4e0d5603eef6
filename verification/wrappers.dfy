/** The optional-value datatype used throughout the model: `None` stands for
    an absent value, such as a guess field that does not parse as a number or
    a hint request that produced no reply. */
module Wrappers {

  datatype Option<+T> = None | Some(value: T) {

    /** The wrapped value, or `default` when there is none. */
    function GetOr(default: T): T
    {
      match this
      case Some(v) => v
      case None => default
    }
  }
}
