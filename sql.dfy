/** The statements the services send to the remote SQL database:
    parameterised text with `?` placeholders and an argument list. */
module Sql {
  import opened Wrappers
  import opened Text

  /** A bound argument or a stored cell. */
  datatype Value = Int(i: int) | Real(r: real) | Text(s: string) | Null | Undefined

  /** A value position of an `INSERT`: a `?` with its argument, or a literal written into the text. */
  datatype SqlValue = Param(v: Value) | Literal(lit: string)

  /** The statements the services issue. */
  datatype Command =
    | Insert(table: string, columns: seq<string>, values: seq<SqlValue>)
    | Update(table: string, assignments: seq<(string, Value)>, id: int)
    | Delete(table: string, id: int)

  datatype Statement = Statement(sql: string, args: seq<Value>)

  function Placeholders(values: seq<SqlValue>): (r: seq<string>)
    ensures |r| == |values|
  {
    seq(|values|, i requires 0 <= i < |values| =>
      match values[i] case Param(_) => "?" case Literal(l) => "'" + l + "'")
  }

  /** The arguments of the `?` positions, in order. */
  function ParamArgs(values: seq<SqlValue>): seq<Value> {
    if values == [] then []
    else match values[0]
      case Param(v) => [v] + ParamArgs(values[1..])
      case Literal(_) => ParamArgs(values[1..])
  }

  /** A value list of bound arguments only. */
  function Params(args: seq<Value>): (values: seq<SqlValue>)
    ensures |values| == |args| && forall i :: 0 <= i < |args| ==> values[i] == Param(args[i])
  {
    seq(|args|, i requires 0 <= i < |args| => Param(args[i]))
  }

  /** The arguments of a list of bound values are those values. */
  lemma {:induction false} ParamArgsOfParams(args: seq<Value>)
    ensures ParamArgs(Params(args)) == args
  {
    if args != [] {
      assert Params(args)[1..] == Params(args[1..]);
      ParamArgsOfParams(args[1..]);
    }
  }

  /** The arguments of two value lists, one after the other. */
  lemma {:induction false} ParamArgsAppend(a: seq<SqlValue>, b: seq<SqlValue>)
    ensures ParamArgs(a + b) == ParamArgs(a) + ParamArgs(b)
  {
    if a == [] {
      assert a + b == b;
    } else {
      assert (a + b)[1..] == a[1..] + b;
      ParamArgsAppend(a[1..], b);
    }
  }

  function Assignments(assignments: seq<(string, Value)>): (r: seq<string>)
    ensures |r| == |assignments|
  {
    seq(|assignments|, i requires 0 <= i < |assignments| => assignments[i].0 + " = ?")
  }

  /** `INSERT INTO table (c1, c2, ...) VALUES (`. */
  function InsertHead(table: string, columns: seq<string>): string {
    "INSERT INTO " + table + " (" + Join(columns, ", ") + ") VALUES ("
  }

  /** `INSERT INTO table (c1, c2, ...) VALUES (?, ..., 'literal', ...)`. */
  function RenderInsert(table: string, columns: seq<string>, values: seq<SqlValue>): Statement {
    Statement(InsertHead(table, columns) + Join(Placeholders(values), ", ") + ")", ParamArgs(values))
  }

  /** `UPDATE table SET f1 = ?, f2 = ? WHERE id = ?`, the id bound last. */
  function RenderUpdate(table: string, assignments: seq<(string, Value)>, id: int): Statement {
    Statement(UpdateHead(table) + Join(Assignments(assignments), ", ") + WhereId(),
      seq(|assignments|, i requires 0 <= i < |assignments| => assignments[i].1) + [Int(id)])
  }

  /** `DELETE FROM table WHERE id = ?`. */
  function RenderDelete(table: string, id: int): Statement {
    Statement("DELETE FROM " + table + WhereId(), [Int(id)])
  }

  function WhereId(): string { " WHERE id = ?" }

  /** `UPDATE table SET `. */
  function UpdateHead(table: string): string {
    "UPDATE " + table + " SET "
  }

  /** The text and arguments sent for a command (white space normalised). */
  function Render(cmd: Command): Statement {
    match cmd
    case Insert(table, columns, values) => RenderInsert(table, columns, values)
    case Update(table, assignments, id) => RenderUpdate(table, assignments, id)
    case Delete(table, id) => RenderDelete(table, id)
  }

  // ---------------------------------------------------------------------
  // Placeholder counting

  function CountAll(parts: seq<string>, c: char): nat {
    if parts == [] then 0 else Count(parts[0], c) + CountAll(parts[1..], c)
  }

  lemma {:induction false} CountJoin(parts: seq<string>, sep: string, c: char)
    requires c !in sep
    ensures Count(Join(parts, sep), c) == CountAll(parts, c)
  {
    if |parts| > 1 {
      CountJoin(parts[1..], sep, c);
    }
  }

  function ParamCount(values: seq<SqlValue>): nat {
    if values == [] then 0 else (if values[0].Param? then 1 else 0) + ParamCount(values[1..])
  }

  lemma {:induction false} ParamArgsLength(values: seq<SqlValue>)
    ensures |ParamArgs(values)| == ParamCount(values)
  {
    if values != [] { ParamArgsLength(values[1..]); }
  }

  lemma {:induction false} PlaceholdersCount(values: seq<SqlValue>)
    requires forall i :: 0 <= i < |values| && values[i].Literal? ==> '?' !in values[i].lit
    ensures CountAll(Placeholders(values), '?') == ParamCount(values)
  {
    if values != [] {
      assert Placeholders(values)[1..] == Placeholders(values[1..]);
      PlaceholdersCount(values[1..]);
    }
  }

  lemma {:induction false} AssignmentsCount(assignments: seq<(string, Value)>)
    requires forall i :: 0 <= i < |assignments| ==> '?' !in assignments[i].0
    ensures CountAll(Assignments(assignments), '?') == |assignments|
  {
    if assignments != [] {
      assert Assignments(assignments)[1..] == Assignments(assignments[1..]);
      AssignmentsCount(assignments[1..]);
    }
  }

  lemma {:induction false} ColumnsCount(columns: seq<string>)
    requires forall i :: 0 <= i < |columns| ==> '?' !in columns[i]
    ensures CountAll(columns, '?') == 0
  {
    if columns != [] {
      ColumnsCount(columns[1..]);
    }
  }

  /** No `?` in the names and literals an insert writes into its text. */
  predicate PlainInsert(table: string, columns: seq<string>, values: seq<SqlValue>) {
    && '?' !in table
    && (forall i :: 0 <= i < |columns| ==> '?' !in columns[i])
    && (forall i :: 0 <= i < |values| && values[i].Literal? ==> '?' !in values[i].lit)
  }

  /** No `?` in the names an update writes into its text. */
  predicate PlainUpdate(table: string, assignments: seq<(string, Value)>) {
    '?' !in table && forall i :: 0 <= i < |assignments| ==> '?' !in assignments[i].0
  }

  predicate NoMarkInNames(cmd: Command) {
    match cmd
    case Insert(table, columns, values) => PlainInsert(table, columns, values)
    case Update(table, assignments, _) => PlainUpdate(table, assignments)
    case Delete(table, _) => '?' !in table
  }

  /** Every statement binds exactly one argument per `?` in its text. */
  lemma PlaceholdersMatchArgs(cmd: Command)
    requires NoMarkInNames(cmd)
    ensures Count(Render(cmd).sql, '?') == |Render(cmd).args|
  {
    match cmd
    case Insert(table, columns, values) => InsertPlaceholders(table, columns, values);
    case Update(table, assignments, id) => UpdatePlaceholders(table, assignments, id);
    case Delete(table, id) => DeletePlaceholders(table, id);
  }

  lemma InsertHeadCount(table: string, columns: seq<string>)
    requires '?' !in table && forall i :: 0 <= i < |columns| ==> '?' !in columns[i]
    ensures Count(InsertHead(table, columns), '?') == 0
  {
    var cols := Join(columns, ", ");
    assert Count(cols, '?') == 0 by {
      CountJoin(columns, ", ", '?');
      ColumnsCount(columns);
    }
    NoMarkInPieces("INSERT INTO ", table, " (", cols, ") VALUES (");
  }

  /** Five pieces, none holding a `?`, hold none together. */
  lemma NoMarkInPieces(a: string, b: string, c: string, d: string, e: string)
    requires '?' !in a && '?' !in b && '?' !in c && '?' !in e && Count(d, '?') == 0
    ensures Count(a + b + c + d + e, '?') == 0
  {
    assert multiset(a + b + c + d + e) == multiset(a) + multiset(b) + multiset(c) + multiset(d) + multiset(e);
  }

  lemma InsertPlaceholders(table: string, columns: seq<string>, values: seq<SqlValue>)
    requires PlainInsert(table, columns, values)
    ensures var st := RenderInsert(table, columns, values); Count(st.sql, '?') == |st.args|
  {
    InsertHeadCount(table, columns);
    MarksCount(values);
    CountClosedList(InsertHead(table, columns), Join(Placeholders(values), ", "), |ParamArgs(values)|);
  }

  /** The `?` of an insert's value list: one per bound argument. */
  lemma MarksCount(values: seq<SqlValue>)
    requires forall i :: 0 <= i < |values| && values[i].Literal? ==> '?' !in values[i].lit
    ensures Count(Join(Placeholders(values), ", "), '?') == |ParamArgs(values)|
  {
    CountJoin(Placeholders(values), ", ", '?');
    PlaceholdersCount(values);
    ParamArgsLength(values);
  }

  lemma CountClosedList(head: string, marks: string, n: nat)
    requires Count(head, '?') == 0 && Count(marks, '?') == n
    ensures Count(head + marks + ")", '?') == n
  {
    assert multiset(head + marks + ")") == multiset(head) + multiset(marks) + multiset(")");
  }

  lemma UpdatePlaceholders(table: string, assignments: seq<(string, Value)>, id: int)
    requires PlainUpdate(table, assignments)
    ensures var st := RenderUpdate(table, assignments, id); Count(st.sql, '?') == |st.args|
  {
    var clause := Join(Assignments(assignments), ", ");
    UpdateHeadCount(table);
    SetClauseCount(assignments);
    WhereIdCount();
    CountAppend(UpdateHead(table), clause, '?');
    CountAppend(UpdateHead(table) + clause, WhereId(), '?');
  }

  /** The SET clause holds one `?` per assignment. */
  lemma SetClauseCount(assignments: seq<(string, Value)>)
    requires forall i :: 0 <= i < |assignments| ==> '?' !in assignments[i].0
    ensures Count(Join(Assignments(assignments), ", "), '?') == |assignments|
  {
    CountJoin(Assignments(assignments), ", ", '?');
    AssignmentsCount(assignments);
  }

  lemma UpdateHeadCount(table: string)
    requires '?' !in table
    ensures Count(UpdateHead(table), '?') == 0
  {
    CountAbsent("UPDATE ", '?');
    CountAbsent(table, '?');
    CountAbsent(" SET ", '?');
    CountAppend("UPDATE ", table, '?');
    CountAppend("UPDATE " + table, " SET ", '?');
  }

  /** An insert of bound values only binds them in order, one per `?`. */
  lemma ParamsInsertAligned(table: string, columns: seq<string>, args: seq<Value>)
    requires '?' !in table && forall i :: 0 <= i < |columns| ==> '?' !in columns[i]
    ensures var st := Render(Insert(table, columns, Params(args)));
      st.args == args && Count(st.sql, '?') == |args|
  {
    ParamArgsOfParams(args);
    InsertPlaceholders(table, columns, Params(args));
  }

  /** An update binds the assigned values in order, then the id. */
  lemma UpdateArgs(table: string, assignments: seq<(string, Value)>, id: int)
    ensures var args := Render(Update(table, assignments, id)).args;
      && |args| == |assignments| + 1
      && (forall i :: 0 <= i < |assignments| ==> args[i] == assignments[i].1)
      && args[|assignments|] == Int(id)
  {
  }

  /** An update with no assignment renders an empty SET clause and binds only the id. */
  lemma EmptySetClause(table: string, id: int)
    ensures Render(Update(table, [], id)) == Statement("UPDATE " + table + " SET  WHERE id = ?", [Int(id)])
  {
    assert Join(Assignments([]), ", ") == "";
    assert UpdateHead(table) + "" + WhereId() == "UPDATE " + table + " SET  WHERE id = ?";
  }

  lemma DeletePlaceholders(table: string, id: int)
    requires '?' !in table
    ensures var st := RenderDelete(table, id); Count(st.sql, '?') == |st.args|
  {
    CountAbsent("DELETE FROM ", '?');
    WhereIdCount();
  }

  lemma WhereIdCount()
    ensures Count(WhereId(), '?') == 1
  {
    assert WhereId() == " WHERE id = " + "?";
    CountAbsent(" WHERE id = ", '?');
  }
}
