/** What the other modules share: optional values and flattening. */
module Wrappers {
  datatype Option<+T> = None | Some(value: T)

  /** The parts one after the other. */
  function Concat<T>(parts: seq<seq<T>>): seq<T> {
    if parts == [] then [] else Concat(parts[..|parts| - 1]) + parts[|parts| - 1]
  }
}
