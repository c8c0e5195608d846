/** The state of a coroutine, shared by the stacks and the protocol. */
module Handlers {
  /** `cr_status`. */
  datatype Status = Ready | Active | Terminated
}
