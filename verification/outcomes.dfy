/** Absent values and the two failure conditions of the container: a null
    argument (the NullPointerException of insert and rotate) and an invalid
    argument (the IllegalArgumentException of rotate). */
module Outcomes {

  /** A possibly absent argument; `None` stands for a Java `null`. */
  datatype Option<+T> = None | Some(value: T)

  datatype Error =
    | NullArgument     // a required reference or value was null
    | IllegalArgument  // the two nodes given to rotate are not parent and direct child

  /** Either the new tree or the error the operation raised; on an error no
      tree is produced, so nothing can have been changed. */
  datatype Result<+T> = Success(value: T) | Failure(error: Error)
}
