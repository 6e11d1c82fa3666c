/** Small types shared by the models of the individual controllers. */
module Common {

  datatype Option<+T> = None | Some(value: T)

  /** How one API write can end. A lost write reaches the server although the
      caller sees an error; a refused write changes nothing. */
  datatype Outcome = Applied | Refused | Lost
  {
    predicate Stored() {
      !Refused?
    }

    predicate Error() {
      !Applied?
    }
  }

  function Max(a: int, b: int): int {
    if a < b then b else a
  }

  function Min(a: int, b: int): int {
    if a < b then a else b
  }
}
