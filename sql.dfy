/** What the record layer sends to MySQL and what it gets back. A statement is
  * a value of `Statement`; `Render` gives the exact text the C++ code builds
  * with its string streams, with the driver's `EscapeString` kept as a
  * parameter (`escape`). A result row is the sequence of its fields, each
  * named, in the order of the SELECT list. */
module Sql {
  import opened Variants
  import opened Text

  datatype Field = Field(name: string, value: Variant)

  type Row = seq<Field>

  /** `vtkSQLQuery::DataValue(c)` on the current row: an invalid variant when
    * the column index is out of range. */
  function DataValue(row: Row, c: int): Variant
  {
    if 0 <= c < |row| then row[c].value else Null
  }

  /** A value on the right of `column = …` in a SET list: SQL NULL or an
    * escaped literal. */
  datatype SqlValue = SqlNull | Quoted(text: string)

  datatype Assignment = Assignment(column: string, value: SqlValue)

  datatype Statement =
    | Select(table: string, conditions: seq<(string, string)>)
    | SelectIds(table: string)
    | SelectRelatedIds(table: string, owner: string, ownerId: string)
    | CountRelated(table: string, owner: string, ownerId: string)
    | SelectUids
    | Insert(table: string, assignments: seq<Assignment>)
    | Update(table: string, assignments: seq<Assignment>, id: string)
    | Delete(table: string, id: string)

  /** The statements that change the database. */
  predicate IsWrite(s: Statement)
  {
    s.Insert? || s.Update? || s.Delete?
  }

  function RenderValue(v: SqlValue, escape: string -> string): string
  {
    match v
    case SqlNull => "NULL"
    case Quoted(t) => escape(t)
  }

  /** The conditions of a SELECT: the first introduced by " WHERE ", each
    * further one by " AND ". */
  function WhereClause(conditions: seq<(string, string)>, escape: string -> string): (r: string)
    ensures r == "" <==> |conditions| == 0
    ensures |conditions| > 0 ==> StartsWith(r, " WHERE ")
  {
    if |conditions| == 0 then ""
    else
      var init := WhereClause(conditions[..|conditions| - 1], escape);
      var c := conditions[|conditions| - 1];
      init + (if |conditions| == 1 then " WHERE " else " AND ") + c.0 + " = " + escape(c.1)
  }

  /** A SET list: the assignments separated by ", ". */
  function SetList(assignments: seq<Assignment>, escape: string -> string): (r: string)
    ensures |assignments| == 0 ==> r == ""
    ensures |assignments| > 0 ==> |r| > 0
  {
    if |assignments| == 0 then ""
    else
      var init := SetList(assignments[..|assignments| - 1], escape);
      var a := assignments[|assignments| - 1];
      init + (if |assignments| == 1 then "" else ", ") + a.column + " = " + RenderValue(a.value, escape)
  }

  /** The catalog query `Database::ReadInformationSchema` sends: every column
    * of every table of `database` but the two audit columns, grouped by
    * table in column order. */
  function SchemaQuery(database: string, escape: string -> string): string
  {
    "SELECT table_name, column_name, column_type, data_type, column_default, is_nullable "
    + "FROM information_schema.columns "
    + "WHERE table_schema = " + escape(database) + " "
    + "AND column_name != 'update_timestamp' "
    + "AND column_name != 'create_timestamp' "
    + "ORDER BY table_name, ordinal_position"
  }

  /** The text of a statement as the C++ code streams it. */
  function Render(s: Statement, escape: string -> string): string
  {
    match s
    case Select(table, conditions) =>
      "SELECT * FROM " + table + WhereClause(conditions, escape)
    case SelectIds(table) =>
      "SELECT id FROM " + table
    case SelectRelatedIds(table, owner, ownerId) =>
      "SELECT id FROM " + table + " WHERE " + owner + "_id = " + ownerId
    case CountRelated(table, owner, ownerId) =>
      "SELECT COUNT(*) FROM " + table + " WHERE " + owner + "_id = " + ownerId
    case SelectUids =>
      "SELECT uid FROM Study ORDER BY uid"
    case Insert(table, assignments) =>
      "INSERT INTO " + table + " SET " + SetList(assignments, escape)
    case Update(table, assignments, id) =>
      "UPDATE " + table + " SET " + SetList(assignments, escape) + " WHERE id = " + escape(id)
    case Delete(table, id) =>
      "DELETE FROM " + table + " WHERE id = " + escape(id)
  }
}
