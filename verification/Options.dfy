/** A value that may be missing. */
module Options {

  datatype Option<+T> = None | Some(value: T) {
    /** The value as a list of one, or the empty list. */
    function List(): seq<T> {
      if None? then [] else [value]
    }
  }
}
