/** The partial-update statement builder of the SQLite storage: from an id
    and a key/value map it produces the text `UPDATE students SET ... WHERE
    id = ?` and the positional arguments bound to its placeholders. */
module UpdateBuilder {
  import opened Types

  /** A prepared statement: its SQL text and the values for its `?`s, in order. */
  datatype Statement = Statement(query: string, args: seq<Value>)

  // Both fixed texts are written as short pieces so that the prover never
  // has to take a long literal apart character by character.
  const Head := "UPDATE" + " students" + " SET"
  const Where := " WHERE" + " id" + " = ?"

  /** The keys the builder recognises, in the order it looks them up. */
  const Columns: seq<string> := ["name", "email", "age"]

  /** Position of a recognised key in the lookup order. */
  function Rank(col: string): nat
  {
    if col == "name" then 0 else if col == "email" then 1 else 2
  }

  /** The SET clause for one column, with its leading space. */
  function Clause(col: string): string
  {
    " " + col + " = ?"
  }

  /** The recognised keys present in `updates`, in lookup order; every other
      key is ignored. */
  function PresentColumns(updates: map<string, Value>): (cols: seq<string>)
    ensures forall c :: c in cols <==> c in Columns && c in updates
    ensures forall i, j :: 0 <= i < j < |cols| ==> Rank(cols[i]) < Rank(cols[j])
  {
    (if "name" in updates then ["name"] else [])
    + (if "email" in updates then ["email"] else [])
    + (if "age" in updates then ["age"] else [])
  }

  /** The clauses for `cols`, a comma between each two consecutive ones. */
  function SetList(cols: seq<string>): string
    decreases |cols|
  {
    if |cols| == 0 then ""
    else if |cols| == 1 then Clause(cols[0])
    else Clause(cols[0]) + "," + SetList(cols[1..])
  }

  /** The values `updates` holds for `cols`, in the same order. */
  function Bound(cols: seq<string>, updates: map<string, Value>): (vals: seq<Value>)
    requires forall c :: c in cols ==> c in updates
    ensures |vals| == |cols|
    ensures forall i :: 0 <= i < |cols| ==> vals[i] == updates[cols[i]]
  {
    if cols == [] then [] else [updates[cols[0]]] + Bound(cols[1..], updates)
  }

  /** What the builder yields. The rejection condition follows the code: the
      clause counter is bumped after `name` and after `email`, never after
      `age`, so a map whose only recognised key is `age` is rejected too. */
  function Build(id: int, updates: map<string, Value>): Result<Statement>
  {
    if "name" !in updates && "email" !in updates then Err(NoFields)
    else
      var cols := PresentColumns(updates);
      Ok(Statement(Head + SetList(cols) + Where, Bound(cols, updates) + [Number(id)]))
  }

  /** The builder as the storage runs it: the text, the argument list and
      the clause counter are grown one recognised key at a time. */
  method BuildUpdateStatement(id: int, updates: map<string, Value>) returns (r: Result<Statement>)
    ensures r == Build(id, updates)
    ensures r.Err? <==> "name" !in updates && "email" !in updates
    ensures r.Err? ==> r.error == NoFields
  {
    var query := Head;
    var args: seq<Value> := [];
    var counter := 0;
    // the recognised keys handled so far
    ghost var cols: seq<string> := [];

    if "name" in updates {
      AppendClause(query, args, cols, "name", updates);
      query := query + Clause("name");
      args := args + [updates["name"]];
      counter := counter + 1;
      cols := cols + ["name"];
    }

    if "email" in updates {
      AppendClause(query, args, cols, "email", updates);
      if counter > 0 {
        query := query + ",";
      }
      query := query + Clause("email");
      args := args + [updates["email"]];
      counter := counter + 1;
      cols := cols + ["email"];
    }

    if "age" in updates {
      AppendClause(query, args, cols, "age", updates);
      if counter > 0 {
        query := query + ",";
      }
      query := query + Clause("age");
      args := args + [updates["age"]];
      cols := cols + ["age"];
    }

    if counter == 0 {
      return Err(NoFields);
    }

    assert cols == PresentColumns(updates);
    query := query + Where;
    args := args + [Number(id)];
    r := Ok(Statement(query, args));
  }

  /** One step of the builder: the clause for `c`, preceded by a comma when
      clauses were already emitted, extends the text and the arguments. */
  lemma AppendClause(query: string, args: seq<Value>, cols: seq<string>, c: string, updates: map<string, Value>)
    requires forall d :: d in cols ==> d in updates
    requires c in updates
    requires query == Head + SetList(cols) && args == Bound(cols, updates)
    ensures query + (if cols == [] then "" else ",") + Clause(c) == Head + SetList(cols + [c])
    ensures args + [updates[c]] == Bound(cols + [c], updates)
  {
    SetListSnoc(cols, c);
    assert forall d :: d in cols + [c] ==> d in updates;
  }

  /** Appending one clause to a SET list adds a comma first exactly when the
      list already holds a clause. */
  lemma {:induction false} SetListSnoc(cols: seq<string>, c: string)
    ensures SetList(cols + [c]) == SetList(cols) + (if cols == [] then "" else ",") + Clause(c)
    decreases |cols|
  {
    if |cols| == 0 {
      assert cols + [c] == [c];
    } else if |cols| == 1 {
      assert (cols + [c])[1..] == [c];
    } else {
      assert (cols + [c])[1..] == cols[1..] + [c];
      SetListSnoc(cols[1..], c);
    }
  }

  // ---------------------------------------------------------------------------
  // What the builder promises about its output

  /** The update is refused, before any statement exists, exactly when the map
      holds neither `name` nor `email`: the verdict of the counter check, stated
      about the specification function so that other lemmas can use it (the
      builder method states the same of its own result). */
  lemma RejectedExactlyWithoutNameOrEmail(id: int, updates: map<string, Value>)
    ensures Build(id, updates).Err? <==> "name" !in updates && "email" !in updates
    ensures Build(id, updates).Err? ==> Build(id, updates).error == NoFields
  {
  }

  /** A map whose only key is `age` names a recognised column, yet it is
      refused with NoFields: the counter never counts the `age` clause. */
  lemma AgeOnlyUpdateRejected(id: int, v: Value)
    ensures PresentColumns(map["age" := v]) == ["age"]
    ensures Build(id, map["age" := v]) == Err(NoFields)
  {
  }

  /** How often `ch` occurs in `s`. */
  function Count(s: string, ch: char): nat
  {
    if s == [] then 0 else (if s[0] == ch then 1 else 0) + Count(s[1..], ch)
  }

  lemma {:induction false} CountConcat(a: string, b: string, ch: char)
    ensures Count(a + b, ch) == Count(a, ch) + Count(b, ch)
  {
    if a == [] {
      assert a + b == b;
    } else {
      CountConcat(a[1..], b, ch);
      assert (a + b)[1..] == a[1..] + b;
    }
  }

  lemma {:induction false} CountAbsent(s: string, ch: char)
    requires ch !in s
    ensures Count(s, ch) == 0
  {
    if s != [] {
      CountAbsent(s[1..], ch);
    }
  }

  /** A piece of fixed text that holds neither a `?` nor a `,`. */
  lemma {:induction false} PlainCounts(s: string)
    requires '?' !in s && ',' !in s
    ensures Count(s, '?') == 0 && Count(s, ',') == 0
  {
    CountAbsent(s, '?');
    CountAbsent(s, ',');
  }

  lemma HeadCounts()
    ensures Count(Head, '?') == 0 && Count(Head, ',') == 0
  {
    assert '?' !in Head && ',' !in Head;
    PlainCounts(Head);
  }

  lemma WhereCounts()
    ensures Count(Where, '?') == 1 && Count(Where, ',') == 0
  {
    var start := " WHERE" + " id";
    assert '?' !in start && ',' !in start;
    PlainCounts(start);
    ClauseTailCounts();
    CountConcat(start, " = ?", '?');
    CountConcat(start, " = ?", ',');
  }

  lemma ClauseTailCounts()
    ensures Count(" = ?", '?') == 1 && Count(" = ?", ',') == 0
  {
  }

  lemma ClauseCounts(c: string)
    requires c in Columns
    ensures Count(Clause(c), '?') == 1 && Count(Clause(c), ',') == 0
  {
    ClauseTailCounts();
    PlainCounts(" " + c);
    CountConcat(" " + c, " = ?", '?');
    CountConcat(" " + c, " = ?", ',');
  }

  lemma {:induction false} SetListCounts(cols: seq<string>)
    requires forall c :: c in cols ==> c in Columns
    ensures Count(SetList(cols), '?') == |cols|
    ensures Count(SetList(cols), ',') == if cols == [] then 0 else |cols| - 1
    decreases |cols|
  {
    if |cols| > 0 {
      var c := cols[0];
      ClauseCounts(c);
      if |cols| > 1 {
        SetListCounts(cols[1..]);
        CountConcat(Clause(c) + ",", SetList(cols[1..]), '?');
        CountConcat(Clause(c) + ",", SetList(cols[1..]), ',');
        CountConcat(Clause(c), ",", '?');
        CountConcat(Clause(c), ",", ',');
      }
    }
  }

  /** The text holds one `?` per argument: every value is passed as a
      parameter, none is spliced into the SQL. Commas only separate clauses. */
  lemma PlaceholdersMatchArgs(id: int, updates: map<string, Value>)
    requires Build(id, updates).Ok?
    ensures Count(Build(id, updates).value.query, '?') == |Build(id, updates).value.args|
    ensures Count(Build(id, updates).value.query, ',') == |PresentColumns(updates)| - 1
  {
    var cols := PresentColumns(updates);
    SetListCounts(cols);
    HeadCounts();
    WhereCounts();
    CountConcat(Head + SetList(cols), Where, '?');
    CountConcat(Head + SetList(cols), Where, ',');
    CountConcat(Head, SetList(cols), '?');
    CountConcat(Head, SetList(cols), ',');
  }

  lemma {:induction false} SetListEndsWithPlaceholder(cols: seq<string>)
    requires cols != []
    ensures |SetList(cols)| > 0 && SetList(cols)[|SetList(cols)| - 1] == '?'
    decreases |cols|
  {
    if |cols| > 1 {
      SetListEndsWithPlaceholder(cols[1..]);
    }
  }

  /** On success the text ends in ` WHERE id = ?` right after a `?` (never a
      dangling comma) and the id is the last argument. */
  lemma StatementEndsWithId(id: int, updates: map<string, Value>)
    requires Build(id, updates).Ok?
    ensures var st := Build(id, updates).value;
      && |st.query| > |Head| + |Where|
      && st.query[..|Head|] == Head
      && st.query[|st.query| - |Where|..] == Where
      && st.query[|st.query| - |Where| - 1] == '?'
      && |st.args| == |PresentColumns(updates)| + 1
      && st.args[|st.args| - 1] == Number(id)
  {
    var cols := PresentColumns(updates);
    SetListEndsWithPlaceholder(cols);
    var q := Head + SetList(cols) + Where;
    assert q[|q| - |Where| - 1] == SetList(cols)[|SetList(cols)| - 1];
  }

  /** The text depends only on which recognised keys are present: neither the
      values, nor the id, nor any other key changes it. Each argument before
      the id is the value of the clause at the same position. */
  lemma QueryDependsOnlyOnPresentKeys(id1: int, u1: map<string, Value>, id2: int, u2: map<string, Value>)
    requires "name" in u1 <==> "name" in u2
    requires "email" in u1 <==> "email" in u2
    requires "age" in u1 <==> "age" in u2
    ensures Build(id1, u1).Err? <==> Build(id2, u2).Err?
    ensures Build(id1, u1).Ok? ==> Build(id1, u1).value.query == Build(id2, u2).value.query
    ensures Build(id1, u1).Ok? ==>
      forall i :: 0 <= i < |PresentColumns(u1)| ==>
        Build(id1, u1).value.args[i] == u1[PresentColumns(u1)[i]]
  {
  }

  // ---------------------------------------------------------------------------
  // How the table engine reads a SET list back

  predicate HasPrefix(s: string, p: string)
  {
    |p| <= |s| && s[..|p|] == p
  }

  /** Recognises one clause at the front of `s`; yields its column and the rest. */
  function StripClause(s: string): (r: Option<(string, string)>)
    ensures r.Some? ==> r.value.0 in Columns && s == Clause(r.value.0) + r.value.1
  {
    if HasPrefix(s, Clause("name")) then Some(("name", s[|Clause("name")|..]))
    else if HasPrefix(s, Clause("email")) then Some(("email", s[|Clause("email")|..]))
    else if HasPrefix(s, Clause("age")) then Some(("age", s[|Clause("age")|..]))
    else None
  }

  /** The columns of a comma-separated SET list, or None when it is malformed. */
  function ParseSetList(s: string): Option<seq<string>>
    decreases |s|
  {
    match StripClause(s)
    case None => None
    case Some((col, rest)) =>
      if rest == [] then Some([col])
      else if rest[0] != ',' then None
      else match ParseSetList(rest[1..])
        case None => None
        case Some(more) => Some([col] + more)
  }

  /** The columns an UPDATE text assigns, or None when it is not of the form
      the builder emits. */
  function ParseUpdate(q: string): Option<seq<string>>
  {
    if |Head| + |Where| <= |q| && q[..|Head|] == Head && q[|q| - |Where|..] == Where
    then ParseSetList(q[|Head|..|q| - |Where|])
    else None
  }

  lemma StripClauseOf(c: string, t: string)
    requires c in Columns
    ensures StripClause(Clause(c) + t) == Some((c, t))
  {
    var s := Clause(c) + t;
    assert s[..|Clause(c)|] == Clause(c);
    assert s[|Clause(c)|..] == t;
    assert s[1] == c[0];
  }

  lemma {:induction false} SetListRoundTrip(cols: seq<string>)
    requires cols != []
    requires forall c :: c in cols ==> c in Columns
    ensures ParseSetList(SetList(cols)) == Some(cols)
    decreases |cols|
  {
    var c := cols[0];
    assert c in Columns;
    if |cols| == 1 {
      StripClauseOf(c, []);
      assert SetList(cols) == Clause(c) + [];
      assert cols == [c];
    } else {
      var rest := "," + SetList(cols[1..]);
      StripClauseOf(c, rest);
      assert SetList(cols) == Clause(c) + rest;
      assert rest[1..] == SetList(cols[1..]);
      SetListRoundTrip(cols[1..]);
      assert [c] + cols[1..] == cols;
    }
  }

  /** Reading a built statement back yields exactly the present columns, in
      lookup order: the text determines which column each argument sets. */
  lemma ParseBuiltUpdate(id: int, updates: map<string, Value>)
    requires Build(id, updates).Ok?
    ensures ParseUpdate(Build(id, updates).value.query) == Some(PresentColumns(updates))
  {
    var cols := PresentColumns(updates);
    var body := SetList(cols);
    var q := Head + body + Where;
    assert q[..|Head|] == Head;
    assert q[|q| - |Where|..] == Where;
    assert q[|Head|..|q| - |Where|] == body;
    SetListRoundTrip(cols);
  }
}
