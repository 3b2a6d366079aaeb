/** The ways a step of the trainer can abort. The Rust program has no
    recoverable errors: each of these is a panic that ends the process. */
module Outcomes {

  datatype Panic =
    | Unimplemented     // a `todo!()` arm was reached
    | PopOnEmpty        // `pop().unwrap()` on an empty vector
    | IndexOutOfBounds  // an array index past the end
    | EmptyStack        // `last_mut().unwrap()` on an empty screen stack

  /** Rust's `Option`: a navigation request, or none. */
  datatype Option<+T> = None | Some(value: T)

  /** Result of one step: the new value, or the panic that stopped the program. */
  datatype Outcome<+T> = Done(value: T) | Crash(reason: Panic)
}
