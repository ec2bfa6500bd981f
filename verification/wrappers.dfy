/** Optional values, used for lookups and for readers that can reject their input. */
module Wrappers {

  datatype Option<+T> = None | Some(value: T)

  /** `x` in front of a sequence that was read, or no sequence when the reading failed. */
  function Prepend<T>(x: T, rest: Option<seq<T>>): Option<seq<T>>
  {
    match rest
    case None => None
    case Some(t) => Some([x] + t)
  }
}
