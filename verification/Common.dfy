/** What several components share: an optional value, the responses to management commands, and semaphores. */
module Options {
  datatype Option<T> = None | Some(value: T)
}

module Management {
  // The responses of EMGMResponse in core/include/forte/mgmcmd.h that the modelled commands give
  datatype Response = Ready | InvalidState | InvalidOperation | InvalidDst | NoSuchObject | UnsupportedType
}

module Semaphores {
  // A semaphore that counts up to a limit, which is 1 for a binary one
  function Increased(count: nat, limit: nat): nat {
    if count < limit then count + 1 else count
  }
}
