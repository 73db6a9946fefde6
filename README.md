# students-api storage core in Dafny

This project models the SQLite storage layer of students-api, a small HTTP
service over a `students` table with the columns id, name, email and age. The
storage layer has five operations: create, get by id, list, delete by id and
partial update. The model has two parts.

- **The partial-update builder** (`update_builder.dfy`, module `UpdateBuilder`).
  From an id and a key/value map it builds the text
  `UPDATE students SET ... WHERE id = ?` and the positional argument list.
  `BuildUpdateStatement` keeps the original's shape: a `query` string, an
  `args` sequence and a `counter` that grow one recognised key at a time. It is
  proved equal to the specification function `Build`. The lemmas state what
  the text means:
  - clauses come in the fixed order name, email, age, and other keys are ignored;
  - a comma comes before a clause exactly when a clause was already emitted;
  - the text holds one `?` per argument, so values never enter the text;
  - the id is the last argument, bound to ` WHERE id = ?`;
  - the text can be read back into exactly the columns it assigns.
- **The table** (`sqlite.dfy`, module `Sqlite`). Class `Sqlite` has a
  `rows: map<int, Student>` field and a `nextId` counter that stands for SQLite's
  AUTOINCREMENT. `nextId` is one more than the largest id ever handed out, up
  to the largest 64-bit rowid. Each method states its result and the new table.
  An update runs the text the builder produced: `RunUpdate` reads the assigned
  columns off the text and binds the arguments in order. `RunBuiltUpdate` proves
  that this changes exactly the row with that id, field by field as `Patched`
  says.

`types.dfy` (module `Types`) holds the entity and the outcomes. A `Value` is
what a decoded JSON payload or the id can bind to a placeholder. A `Student`
column keeps the value last bound to it. Errors are `NotFound`, `NoFields`,
`BadStatement` and `Full`.

**Behaviour as written.** The code bumps the clause counter after `name` and
after `email`, but not after `age` (internal/storage/sqlite/sqlite.go:161-167).
So an update whose only recognised key is `age` is refused with "no fields to
update". The `age` branch appends and binds an `age` clause
(internal/storage/sqlite/sqlite.go:161-166), so an age-only update looks meant
to change the age; the check on the counter refuses it instead
(internal/storage/sqlite/sqlite.go:169-171). The model follows the code: `Build` refuses exactly the maps that hold
neither `name` nor `email`, and `AgeOnlyUpdateRejected` shows the age-only
case. Because `age` is the last clause, the missing increment never leaves a
trailing comma (`StatementEndsWithId`).

## Model

| member | source | states |
|---|---|---|
| `UpdateBuilder.BuildUpdateStatement` | internal/storage/sqlite/sqlite.go:139-174 | The text, argument list and counter, grown key by key, give exactly `Build`. That is NoFields when neither name nor email is present. Otherwise it is `UPDATE students SET`, the comma-separated clauses of the present recognised keys and ` WHERE id = ?`, with the values of those keys followed by the id |
| `UpdateBuilder.AppendClause` | internal/storage/sqlite/sqlite.go:152-166 | One builder step: a comma is written before a clause exactly when a clause was already emitted, and the text and arguments stay in step with the columns handled so far |
| `UpdateBuilder.SetListSnoc` | internal/storage/sqlite/sqlite.go:152-166 | Appending a clause to a SET list adds a separating comma exactly when the list is not empty |
| `UpdateBuilder.PresentColumns` | internal/storage/sqlite/sqlite.go:145-167 | The clauses name exactly the recognised keys present in the map, strictly in the order name, email, age, whatever else the map holds |
| `UpdateBuilder.Bound` | internal/storage/sqlite/sqlite.go:145-167 | The i-th argument is the map's value for the i-th column named in the text |
| `UpdateBuilder.RejectedExactlyWithoutNameOrEmail` | internal/storage/sqlite/sqlite.go:169-171 | The builder refuses with NoFields exactly when the map holds neither `name` nor `email`, before any statement exists |
| `UpdateBuilder.AgeOnlyUpdateRejected` | internal/storage/sqlite/sqlite.go:161-171 | A map holding only `age` names a recognised column, yet it is refused with NoFields because `age` is never counted |
| `UpdateBuilder.PlaceholdersMatchArgs` | internal/storage/sqlite/sqlite.go:145-174 | The built text holds exactly one `?` per argument, and one comma fewer than it has clauses |
| `UpdateBuilder.SetListCounts` | internal/storage/sqlite/sqlite.go:145-167 | A SET list of n recognised columns holds n placeholders and n-1 commas |
| `UpdateBuilder.StatementEndsWithId` | internal/storage/sqlite/sqlite.go:140-174 | On success the text starts with `UPDATE students SET` and ends with ` WHERE id = ?` right after a `?`, never a comma. There is one argument per clause plus the id, and the id is last |
| `UpdateBuilder.SetListEndsWithPlaceholder` | internal/storage/sqlite/sqlite.go:152-166 | A non-empty SET list ends with a placeholder, not with a comma |
| `UpdateBuilder.QueryDependsOnlyOnPresentKeys` | internal/storage/sqlite/sqlite.go:145-167 | Two maps with the same recognised keys give the same verdict and the same text, whatever their values, other keys or ids; the values go only into the arguments |
| `UpdateBuilder.StripClause` | internal/storage/sqlite/sqlite.go:176 | Recognising a clause at the front of a text yields a recognised column, and the text is that clause followed by the rest |
| `UpdateBuilder.SetListRoundTrip` | internal/storage/sqlite/sqlite.go:152-166 | Reading back the SET list of any non-empty sequence of recognised columns yields that sequence |
| `UpdateBuilder.ParseBuiltUpdate` | internal/storage/sqlite/sqlite.go:173-176 | Reading a built statement yields exactly the present columns, in order, so the text determines which column each argument sets |
| `Sqlite.RunUpdate` | internal/storage/sqlite/sqlite.go:182-194 | Running an UPDATE keeps the set of ids and affects at most one row. Zero affected rows means the table is unchanged, and a changed row is the one whose id is the last argument |
| `Sqlite.AssignOrdered` | internal/storage/sqlite/sqlite.go:182 | Binding values position by position to distinct recognised columns in lookup order sets exactly those columns and keeps the id and the rest |
| `Sqlite.AssignPresentColumns` | internal/storage/sqlite/sqlite.go:145-182 | Binding the built arguments to the built columns is the field-by-field update `Patched` |
| `Sqlite.RunBuiltUpdate` | internal/storage/sqlite/sqlite.go:176-194 | A built statement is always accepted. It rewrites only the row with that id, as `Patched` says, and reports one affected row. With no such row it changes nothing and reports zero |
| `Sqlite.Sqlite.constructor` | internal/storage/sqlite/sqlite.go:17-37 | A new database has an empty `students` table whose first id will be 1 |
| `Sqlite.Sqlite.CreateStudent` | internal/storage/sqlite/sqlite.go:39-59 | Inserts the given name, email and age under an id that was never present and is greater than every earlier id, and returns that id. Once the largest rowid is used it fails with Full and changes nothing |
| `Sqlite.Sqlite.GetStudentById` | internal/storage/sqlite/sqlite.go:61-81 | Returns the row stored under the id, whose own id is that id, or NotFound when there is none |
| `Sqlite.Sqlite.GetStudents` | internal/storage/sqlite/sqlite.go:83-112 | Returns every row exactly once and nothing else, in no promised order |
| `Sqlite.Sqlite.DeleteStudentById` | internal/storage/sqlite/sqlite.go:114-137 | Removes exactly the row with the id and keeps every other row; with no such row it fails with NotFound and changes nothing. The id counter is untouched, so ids are never reused |
| `Sqlite.Sqlite.UpdateStudentById` | internal/storage/sqlite/sqlite.go:139-197 | Without name or email it fails with NoFields and leaves the table unchanged. With a missing id it fails with NotFound and changes nothing. Otherwise only that row changes, exactly in its present fields, and the result equals a fresh read of the id |

## Left out

- The HTTP handlers, JSON decoding, request validation, status codes, configuration loading, route registration and graceful shutdown are not part of this model. They are process wiring over `net/http` and an external validator library.
- internal/storage/storage.go is an interface with no logic. Its five signatures are the methods of class `Sqlite`.
- Driver failures are not modelled: `sql.Open`, `Prepare`, `Exec`, `Query`, `Scan`, `LastInsertId`, `RowsAffected` and the wrapping "query error". The model has no storage I/O that can fail. The only storage failures kept are the ones the table itself decides: NotFound, a full AUTOINCREMENT (Full) and an unreadable statement (BadStatement, never reached from the builder).
- SQLite column type affinity and the conversions `database/sql` applies when scanning into a Go struct are not modelled. A column keeps the `Value` that was bound to it, and create binds `Text(name)`, `Text(email)` and `Number(age)`.
- Error texts ("not student found with id …", "no student found with id …", "no fields to update") are represented by the `Error` variants, not as strings.
- `RunUpdate` understands only the form of UPDATE the builder emits. It is not a general SQL parser.
- The database is single-threaded. The race between the UPDATE and the read-back in `UpdateStudentById` cannot happen in the model, so its read-back always finds the row.
- Opening an existing database file, where `CREATE TABLE IF NOT EXISTS` keeps earlier rows, is not modelled. The constructor models a new database.
- `GetStudents` returns an empty sequence for an empty table. The source returns a nil slice, which the handler encodes as JSON `null`.
- JSON numbers in an update payload decode to floating point in the source. `Value.Number` holds an integer instead.
- Sqlite.Sqlite.UpdateStudentById: the read-back cannot fail. In the source, an update that stores a value the struct cannot scan (`{"name": null}`, or a non-numeric `age` next to `name`) writes the row, and then the read-back fails in `Scan` (internal/storage/sqlite/sqlite.go:196 calling 72-77). The caller gets an error although the table changed, and later listings fail the same way (internal/storage/sqlite/sqlite.go:103-105). The model returns `Ok` with the row holding the bound `Value`, because it does not model scan conversions.
- Integer widths are not modelled: ids passed in and the age are unbounded `int`s. The 64-bit limit is modelled only for ids the table hands out (`MaxRowId`).
