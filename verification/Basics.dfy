/** What several of the other modules use. */
module Basics {
  function Min(a: int, b: int): int {
    if a < b then a else b
  }

  function Max(a: nat, b: nat): nat {
    if a < b then b else a
  }

  /** What becomes of a message given to a socket: it is sent, waits for the socket, or fails. */
  datatype Status = Sent | Blocked | Broken
}
