/** Shared by the other modules. */
module Prelude {
  datatype Option<T> = None | Some(value: T)

  /** Overwrite the entry with the last one and drop the last one. */
  function SwapRemove<T>(xs: seq<T>, i: nat): seq<T>
    requires i < |xs|
  {
    xs[i := xs[|xs| - 1]][..|xs| - 1]
  }
}
