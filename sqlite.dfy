/** The SQLite-backed storage: the `students` table and the five operations
    of the storage interface over it. */
module Sqlite {
  import opened Types
  import opened UpdateBuilder

  /** The largest rowid SQLite hands out: rowids are signed 64-bit integers. */
  const MaxRowId := 0x7FFF_FFFF_FFFF_FFFF

  // ---------------------------------------------------------------------------
  // How the table runs an UPDATE statement

  function SetColumn(s: Student, col: string, v: Value): Student
  {
    if col == "name" then s.(name := v)
    else if col == "email" then s.(email := v)
    else if col == "age" then s.(age := v)
    else s
  }

  /** Writes `vals` into `cols`, position by position, left to right. */
  function Assign(s: Student, cols: seq<string>, vals: seq<Value>): Student
    requires |cols| == |vals|
    decreases |cols|
  {
    if cols == [] then s else Assign(SetColumn(s, cols[0], vals[0]), cols[1..], vals[1..])
  }

  /** What a partial update means for one row, stated field by field: each of
      `name`, `email`, `age` that the map holds replaces that column; the id
      and the other columns keep their values, and other keys are ignored. */
  function Patched(s: Student, updates: map<string, Value>): Student
  {
    Student(
      s.id,
      if "name" in updates then updates["name"] else s.name,
      if "email" in updates then updates["email"] else s.email,
      if "age" in updates then updates["age"] else s.age)
  }

  /** The table after a statement, and how many rows it changed. */
  datatype Executed = Executed(rows: map<int, Student>, affected: nat)

  /** Runs an UPDATE on `rows`: the engine reads the assigned columns off the
      text, binds the arguments to the placeholders in order, and rewrites the
      row whose id is the last argument, if there is one. A text it cannot
      read or an argument count that does not match is refused. */
  function RunUpdate(rows: map<int, Student>, st: Statement): (r: Result<Executed>)
    ensures r.Ok? ==> r.value.rows.Keys == rows.Keys && r.value.affected <= 1
    ensures r.Ok? && r.value.affected == 0 ==> r.value.rows == rows
    ensures r.Ok? ==> |st.args| > 0 && forall id :: id in rows && r.value.rows[id] != rows[id] ==>
      st.args[|st.args| - 1] == Number(id)
  {
    match ParseUpdate(st.query)
    case None => Err(BadStatement)
    case Some(cols) =>
      if |st.args| != |cols| + 1 then Err(BadStatement)
      else
        var key := st.args[|cols|];
        if key.Number? && key.n in rows
        then Ok(Executed(rows[key.n := Assign(rows[key.n], cols, st.args[..|cols|])], 1))
        else Ok(Executed(rows, 0))
  }

  /** Assigning values to recognised columns that appear once each, in
      lookup order, sets each of those columns to its value and keeps the
      others; `updates` holds the value for every column named. */
  lemma {:induction false} AssignOrdered(s: Student, cols: seq<string>, vals: seq<Value>, updates: map<string, Value>)
    requires |cols| == |vals|
    requires forall c :: c in cols ==> c in Columns && c in updates
    requires forall i :: 0 <= i < |cols| ==> vals[i] == updates[cols[i]]
    requires forall i, j :: 0 <= i < j < |cols| ==> Rank(cols[i]) < Rank(cols[j])
    ensures Assign(s, cols, vals) == Student(
      s.id,
      if "name" in cols then updates["name"] else s.name,
      if "email" in cols then updates["email"] else s.email,
      if "age" in cols then updates["age"] else s.age)
    decreases |cols|
  {
    if cols != [] {
      var c := cols[0];
      assert c in Columns && c in updates;
      assert forall d :: d in cols[1..] ==> d != c && d in cols by {
        forall d | d in cols[1..] ensures d != c && d in cols {
          var k :| 0 <= k < |cols[1..]| && cols[1..][k] == d;
          assert Rank(cols[0]) < Rank(cols[k + 1]);
        }
      }
      forall d | d in cols ensures d == c || d in cols[1..] {
        var k :| 0 <= k < |cols| && cols[k] == d;
        if k > 0 { assert cols[1..][k - 1] == d; }
      }
      AssignOrdered(SetColumn(s, c, vals[0]), cols[1..], vals[1..], updates);
    }
  }

  /** Writing the bound values positionally into the columns the builder
      named gives the field-by-field update. */
  lemma AssignPresentColumns(s: Student, updates: map<string, Value>)
    ensures Assign(s, PresentColumns(updates), Bound(PresentColumns(updates), updates)) == Patched(s, updates)
  {
    var cols := PresentColumns(updates);
    AssignOrdered(s, cols, Bound(cols, updates), updates);
  }

  /** Running a built statement rewrites exactly the row with that id, as
      Patched says, and reports one affected row; when no row has the id the
      table is untouched and zero rows are affected. */
  lemma RunBuiltUpdate(rows: map<int, Student>, id: int, updates: map<string, Value>)
    requires Build(id, updates).Ok?
    ensures RunUpdate(rows, Build(id, updates).value) ==
      Ok(if id in rows then Executed(rows[id := Patched(rows[id], updates)], 1) else Executed(rows, 0))
  {
    var st := Build(id, updates).value;
    var cols := PresentColumns(updates);
    ParseBuiltUpdate(id, updates);
    assert st.args[|cols|] == Number(id);
    assert st.args[..|cols|] == Bound(cols, updates);
    if id in rows {
      AssignPresentColumns(rows[id], updates);
    }
  }

  // ---------------------------------------------------------------------------
  // The table

  lemma NonemptyHasMember(ids: set<int>)
    requires ids != {}
    ensures exists id :: id in ids
  {
    if forall id :: id !in ids {
      assert false;
    }
  }

  /** The `students` table with its AUTOINCREMENT counter. */
  class Sqlite {
    /** The rows, keyed by id. */
    var rows: map<int, Student>
    /** The id the next insert receives: one more than the largest id ever
        handed out, so ids of deleted rows are never reused. */
    var nextId: int

    ghost predicate Valid()
      reads this
    {
      && 1 <= nextId <= MaxRowId + 1
      && forall id :: id in rows ==> 1 <= id < nextId && rows[id].id == id
    }

    /** A new database file: the table is created empty. */
    constructor ()
      ensures Valid() && rows == map[] && nextId == 1
    {
      rows := map[];
      nextId := 1;
    }

    /** INSERT a row and return the id the table assigned to it. */
    method CreateStudent(name: string, email: string, age: int) returns (r: Result<int>)
      requires Valid()
      modifies this
      ensures Valid()
      ensures old(nextId) > MaxRowId ==> r == Err(Full) && rows == old(rows) && nextId == old(nextId)
      ensures old(nextId) <= MaxRowId ==>
        && r == Ok(old(nextId))
        && r.value !in old(rows)
        && (forall id :: id in old(rows) ==> id < r.value)
        && rows == old(rows)[r.value := Student(r.value, Text(name), Text(email), Number(age))]
        && nextId == old(nextId) + 1
    {
      if nextId > MaxRowId {
        return Err(Full);
      }
      var id := nextId;
      rows := rows[id := Student(id, Text(name), Text(email), Number(age))];
      nextId := nextId + 1;
      r := Ok(id);
    }

    /** SELECT the row with this id; no row is reported as NotFound. */
    method GetStudentById(id: int) returns (r: Result<Student>)
      requires Valid()
      ensures id in rows ==> r == Ok(rows[id]) && r.value.id == id
      ensures id !in rows ==> r == Err(NotFound(id))
    {
      if id !in rows {
        return Err(NotFound(id));
      }
      r := Ok(rows[id]);
    }

    /** SELECT every row, one at a time, in an order the table chooses. */
    method GetStudents() returns (students: seq<Student>)
      requires Valid()
      ensures |students| == |rows|
      ensures forall i :: 0 <= i < |students| ==>
        students[i].id in rows && rows[students[i].id] == students[i]
      ensures forall id :: id in rows ==> rows[id] in students
      ensures forall i, j :: 0 <= i < j < |students| ==> students[i].id != students[j].id
    {
      students := [];
      var pending := rows.Keys;
      while pending != {}
        invariant pending <= rows.Keys
        invariant |students| + |pending| == |rows|
        invariant forall i :: 0 <= i < |students| ==>
          students[i].id in rows && rows[students[i].id] == students[i] && students[i].id !in pending
        invariant forall id :: id in rows && id !in pending ==> rows[id] in students
        invariant forall i, j :: 0 <= i < j < |students| ==> students[i].id != students[j].id
        decreases |pending|
      {
        NonemptyHasMember(pending);
        var k :| k in pending;
        students := students + [rows[k]];
        pending := pending - {k};
      }
    }

    /** DELETE the row with this id; zero affected rows is NotFound. */
    method DeleteStudentById(id: int) returns (r: Outcome)
      requires Valid()
      modifies this
      ensures Valid() && nextId == old(nextId)
      ensures id in old(rows) ==> r == Done && rows == old(rows) - {id}
      ensures id !in old(rows) ==> r == Failed(NotFound(id)) && rows == old(rows)
    {
      var affected := if id in rows then 1 else 0;
      rows := rows - {id};
      if affected == 0 {
        return Failed(NotFound(id));
      }
      r := Done;
    }

    /** Build the partial UPDATE, run it, and read the row back. */
    method UpdateStudentById(id: int, updates: map<string, Value>) returns (r: Result<Student>)
      requires Valid()
      modifies this
      ensures Valid() && nextId == old(nextId)
      ensures "name" !in updates && "email" !in updates ==> r == Err(NoFields) && rows == old(rows)
      ensures ("name" in updates || "email" in updates) && id !in old(rows) ==>
        r == Err(NotFound(id)) && rows == old(rows)
      ensures ("name" in updates || "email" in updates) && id in old(rows) ==>
        && rows == old(rows)[id := Patched(old(rows)[id], updates)]
        && r == Ok(rows[id])
    {
      var built := BuildUpdateStatement(id, updates);
      if built.Err? {
        return Err(built.error);
      }
      RunBuiltUpdate(rows, id, updates);
      var run := RunUpdate(rows, built.value);
      // a statement the builder made is always prepared and bound
      assert run.Ok?;
      rows := run.value.rows;
      if run.value.affected == 0 {
        return Err(NotFound(id));
      }
      r := GetStudentById(id);
    }
  }

  /** A session on a new database, written against the contracts above. */
  method ExampleSession()
  {
    var db := new Sqlite();
    var created := db.CreateStudent("Ann", "ann@x.com", 20);
    assert created == Ok(1);
    var ann := Student(1, Text("Ann"), Text("a@y.com"), Number(20));

    var updated := db.UpdateStudentById(1, map["email" := Text("a@y.com")]);
    assert updated == Ok(ann);
    var all := db.GetStudents();
    assert all == [ann];

    var ageOnly := db.UpdateStudentById(1, map["age" := Number(30)]);
    assert ageOnly == Err(NoFields);

    var deleted := db.DeleteStudentById(1);
    assert deleted == Done;
    var again := db.DeleteStudentById(1);
    assert again == Failed(NotFound(1));
    var gone := db.GetStudentById(1);
    assert gone == Err(NotFound(1));
    var next := db.CreateStudent("Bob", "bob@x.com", 21);
    assert next == Ok(2);
  }
}
