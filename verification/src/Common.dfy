/** What several models share. */
module Common {
  datatype Option<T> = None | Some(value: T)

  function Max(x: nat, y: nat): nat { if x > y then x else y }
  function Min(x: nat, y: nat): nat { if x < y then x else y }
}
