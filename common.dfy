/** Shared value types: optional values, Go-style errors, and the rooms and messages of model/. */
module Common {

  datatype Option<+T> = None | Some(value: T)

  /** A Go `error`. Database errors are opaque: only their text matters to callers. */
  datatype Error =
    | NoRows                  // database/sql's sql.ErrNoRows sentinel
    | Failure(text: string)   // any other error, by its Error() text

  /** The text `err.Error()` returns. */
  function ErrorText(e: Error): string
  {
    match e
    case NoRows => "sql: no rows in result set"
    case Failure(t) => t
  }

  datatype Result<+T> = Ok(value: T) | Err(error: Error)

  /** model.Room (its CreatedAt timestamp is not part of this model). */
  datatype Room = Room(id: int, name: string, description: string, createdBy: int)

  /** model.Message (its CreatedAt timestamp is not part of this model). */
  datatype Message = Message(id: int, room: int, user: int, content: string)

  /** A non-empty set has an element: the next key of a `range` over a map exists. */
  lemma NonEmpty(s: set<int>)
    requires s != {}
    ensures exists x :: x in s
  {
    if forall y :: y !in s {
      assert false;
    }
  }
}
