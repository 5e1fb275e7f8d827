/** Small value types shared by the runtime components. */
module Contracts {
  datatype Option<+T> = None | Some(value: T)

  datatype Result<+T, +E> = Ok(value: T) | Err(error: E)

  datatype SideEffect = NoEffect | Read | Write | Delete | Send | Payment {
    /** The effects that a later failure has to undo. */
    predicate WriteClass()
      ensures WriteClass() <==> !NoEffect? && !Read?
    {
      Write? || Delete? || Send? || Payment?
    }
  }
}
