/** Small wrapper types shared by the model.
    - Option<T> stands for a JavaScript value that may be null or undefined.
    - Oracle<T> stands for the outcome of a network call the page awaits: the call either
      resolves with a value or throws (a rejected promise, a non-2xx status for axios,
      a body that is not JSON). The model never performs I/O; the outcome is a parameter. */
module Outcomes {

  datatype Option<+T> = None | Some(value: T)

  datatype Oracle<+T> = Ok(value: T) | Fail
}
