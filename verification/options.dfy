/** An optional value, used both for nullable `char *` fields of the prompt
    record and for `std::string` operations that may throw `std::out_of_range`. */
module Options {

  datatype Option<+T> = None | Some(value: T) {

    /** True if this is None; lets `:-` propagate the absent case. */
    predicate IsFailure() {
      None?
    }

    function PropagateFailure<U>(): Option<U>
      requires None?
    {
      None
    }

    function Extract(): T
      requires Some?
    {
      value
    }
  }
}
