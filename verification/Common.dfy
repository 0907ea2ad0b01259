/** Small definitions shared by several modules. */
module Common {
  datatype Option<T> = None | Some(value: T)

  function Max(x: nat, y: nat): nat { if x >= y then x else y }
}
