/** The Student entity and the values and outcomes the storage layer passes around. */
module Types {

  /** A value bound to a statement placeholder: what a decoded JSON update
      payload can carry, and the row id bound to `WHERE id = ?`. */
  datatype Value = Null | Bool(b: bool) | Number(n: int) | Text(s: string)

  /** One row of the `students` table. Columns keep the value that was bound
      when they were last written (SQLite stores values dynamically typed). */
  datatype Student = Student(id: int, name: Value, email: Value, age: Value)

  /** The failures the storage layer reports. */
  datatype Error =
    | NotFound(id: int)  // no row has this id: no row scanned, or zero rows affected
    | NoFields           // the update map names neither `name` nor `email`
    | BadStatement       // the engine cannot prepare or bind the statement
    | Full               // AUTOINCREMENT has already handed out the largest rowid

  datatype Option<T> = None | Some(value: T)

  datatype Result<T> = Ok(value: T) | Err(error: Error)

  /** The outcome of an operation that returns only an error. */
  datatype Outcome = Done | Failed(error: Error)
}
