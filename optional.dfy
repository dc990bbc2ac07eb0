/** The conventional Some/None datatype, used for absent dictionary keys, missing
    search results and nullable references of the modelled programs. */
module Optional {

  datatype Option<+T> = None | Some(value: T) {

    /** Returns the value held in Some, or `default` for None. */
    function GetOr(default: T): T {
      match this
      case Some(v) => v
      case None => default
    }
  }
}
