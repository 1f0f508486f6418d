// The identity of a window, where the compositor compares pointers.
module Ids {
  datatype WinId = WinId(n: nat)
}
