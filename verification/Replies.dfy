/** How a call to another service ends. */
module Replies {
  // A call that fails may have had its effect.
  datatype Reply = Heard | Unheard(done: bool)

  predicate TookEffect(r: Reply) { r.Heard? || r.done }
}
