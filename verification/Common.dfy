module Common {

  datatype Option<T> = None | Some(value: T)

  function Min(x: int, y: int): int { if x < y then x else y }
}
