// The two result shapes that the models share.

module Results {

  datatype Option<+T> = None | Some(value: T)

  /** Ok is a normal return; Fail is a thrown error, whose message the models leave out. */
  datatype Outcome<+T> = Ok(value: T) | Fail
}
