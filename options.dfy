/** Rust's `Option`, made failure-compatible so that `:-` plays the part of
    the `?` operator the resolver uses to propagate `None`. */
module Options {

  datatype Option<+T> = None | Some(value: T) {

    predicate IsFailure() {
      None?
    }

    function PropagateFailure<U>(): Option<U>
      requires None?
    {
      None
    }

    function Extract(): T
      requires Some?
    {
      value
    }
  }
}
