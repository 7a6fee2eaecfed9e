/** Small shared datatypes and helpers. */
module Common {
  datatype Option<T> = None | Some(value: T)

  function Min(a: int, b: int): (r: int)
  {
    if a <= b then a else b
  }
}
