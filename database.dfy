/** The application's connection to MySQL and its copy of the schema
  * (`Birch::Database`). On connection the object reads the catalog of every
  * table's columns from `information_schema.columns` into a three-level map,
  * table name -> column name -> attribute name -> value, which the records
  * later consult for column names and default values.
  *
  * The server is outside the model. It is represented by three functions
  * fixed when the object is made: `accepts` says whether `Open` succeeds for
  * the given connection parameters, `backend` gives the rows a read query
  * returns once the given write statements have been executed, and `escape`
  * is the driver's `EscapeString`. */
module Database {
  import opened Wrappers
  import opened Variants
  import opened Text
  import opened Sql

  type Attributes = map<string, Variant>
  type TableColumns = map<string, Attributes>
  type Schema = map<string, TableColumns>

  /** `std::map::insert`: a key that is already present keeps its value. */
  function InsertNew<K, V>(m: map<K, V>, k: K, v: V): (r: map<K, V>)
    ensures r.Keys == m.Keys + {k}
    ensures k in m ==> r[k] == m[k]
    ensures k !in m ==> r[k] == v
    ensures forall j :: j in m && j != k ==> r[j] == m[j]
  {
    if k in m then m else m[k := v]
  }

  /** The map a loop builds by inserting each field's (name, value) in order. */
  function FieldMap(fields: seq<Field>): Attributes
  {
    if |fields| == 0 then map[]
    else InsertNew(FieldMap(fields[..|fields| - 1]), fields[|fields| - 1].name, fields[|fields| - 1].value)
  }

  /** Every field name is a key of the map, and no other key is. */
  lemma {:induction false} FieldMapKeys(fields: seq<Field>)
    ensures forall k :: k in FieldMap(fields) <==> exists i :: 0 <= i < |fields| && fields[i].name == k
  {
    if |fields| > 0 {
      var n := |fields| - 1;
      var init := fields[..n];
      FieldMapKeys(init);
      assert FieldMap(fields).Keys == FieldMap(init).Keys + {fields[n].name};
      forall k ensures k in FieldMap(fields) <==> exists i :: 0 <= i < |fields| && fields[i].name == k {
        if k in FieldMap(init) {
          var i :| 0 <= i < |init| && init[i].name == k;
          assert fields[i] == init[i];
        }
        if exists i :: 0 <= i < |fields| && fields[i].name == k {
          var i :| 0 <= i < |fields| && fields[i].name == k;
          if i < n {
            assert init[i] == fields[i];
          }
        }
      }
    }
  }

  /** Each key has the value of the first field of that name. */
  lemma {:induction false} FieldMapValues(fields: seq<Field>)
    ensures forall i :: 0 <= i < |fields| && FirstOfName(fields, i) ==>
      fields[i].name in FieldMap(fields) && FieldMap(fields)[fields[i].name] == fields[i].value
  {
    if |fields| > 0 {
      var n := |fields| - 1;
      var init := fields[..n];
      var f := fields[n];
      var m := FieldMap(init);
      assert FieldMap(fields) == InsertNew(m, f.name, f.value);
      forall i | 0 <= i < |fields| && FirstOfName(fields, i)
        ensures fields[i].name in FieldMap(fields) && FieldMap(fields)[fields[i].name] == fields[i].value
      {
        if i < n {
          assert init[i] == fields[i];
          assert FirstOfName(init, i) by {
            forall j | 0 <= j < i ensures init[j].name != init[i].name {
              assert init[j] == fields[j];
            }
          }
          FieldMapValues(init);
          assert init[i].name in m && m[init[i].name] == init[i].value;
        } else {
          FieldMapKeys(init);
        }
      }
    }
  }

  /** Field `i` is the first of its name. */
  predicate FirstOfName(fields: seq<Field>, i: int)
    requires 0 <= i < |fields|
  {
    forall j :: 0 <= j < i ==> fields[j].name != fields[i].name
  }

  // ---------------------------------------------------------------------
  // Reading the information schema

  /** `DataValue(0)` of an information-schema row. */
  function TableOf(row: Row): string { DataValue(row, 0).ToString() }

  /** `DataValue(1)` of an information-schema row. */
  function ColumnOf(row: Row): string { DataValue(row, 1).ToString() }

  /** The attribute map of a row: its fields from index 2 on, keyed by field
    * name. */
  function AttributesOf(row: Row): Attributes
  {
    if |row| <= 2 then map[] else FieldMap(row[2..])
  }

  /** The three variables of the reading loop. */
  datatype ScanState = ScanState(columns: Schema, tableName: string, tableMap: TableColumns)

  /** One iteration: a row whose table name differs from the current one
    * first saves the current table (unless its name is empty) and starts a
    * new one; then the row's column joins the current table. */
  function ScanRow(st: ScanState, row: Row): ScanState
  {
    var t := TableOf(row);
    var st1 :=
      if st.tableName != t then
        ScanState(if |st.tableName| != 0 then InsertNew(st.columns, st.tableName, st.tableMap) else st.columns, t, map[])
      else st;
    st1.(tableMap := InsertNew(st1.tableMap, ColumnOf(row), AttributesOf(row)))
  }

  /** The loop state after `rows`, starting from the catalog `columns`. */
  function ScanRows(columns: Schema, rows: seq<Row>): ScanState
  {
    if |rows| == 0 then ScanState(columns, "", map[])
    else ScanRow(ScanRows(columns, rows[..|rows| - 1]), rows[|rows| - 1])
  }

  lemma ScanRowsStep(columns: Schema, rows: seq<Row>, i: int)
    requires 0 <= i < |rows|
    ensures ScanRows(columns, rows[..i + 1]) == ScanRow(ScanRows(columns, rows[..i]), rows[i])
  {
    assert rows[..i + 1][..i] == rows[..i];
  }

  /** After the loop the last table is saved, unless its name is empty. */
  function Flush(st: ScanState): Schema
  {
    if |st.tableName| != 0 then InsertNew(st.columns, st.tableName, st.tableMap) else st.columns
  }

  /** The catalog `ReadInformationSchema` leaves, given the one it started
    * from and the rows of the information-schema query. */
  function ReadSchema(columns: Schema, rows: seq<Row>): Schema
  {
    Flush(ScanRows(columns, rows))
  }

  /** Reading never replaces a table the catalog already holds. */
  lemma {:induction false} ScanKeepsOld(columns: Schema, rows: seq<Row>)
    ensures var st := ScanRows(columns, rows);
      forall t :: t in columns ==> t in st.columns && st.columns[t] == columns[t]
  {
    if |rows| > 0 {
      ScanKeepsOld(columns, rows[..|rows| - 1]);
    }
  }

  lemma ReadSchemaKeepsOld(columns: Schema, rows: seq<Row>)
    ensures var r := ReadSchema(columns, rows);
      forall t :: t in columns ==> t in r && r[t] == columns[t]
  {
    ScanKeepsOld(columns, rows);
  }

  /** The tables named by `rows`. */
  function TablesOf(rows: seq<Row>): set<string>
  {
    set i | 0 <= i < |rows| :: TableOf(rows[i])
  }

  /** The column map the rows of table `t` build, first row of a column
    * winning. */
  function ColumnsOf(rows: seq<Row>, t: string): TableColumns
  {
    if |rows| == 0 then map[]
    else
      var m := ColumnsOf(rows[..|rows| - 1], t);
      var r := rows[|rows| - 1];
      if TableOf(r) == t then InsertNew(m, ColumnOf(r), AttributesOf(r)) else m
  }

  /** Row `i` is the first row of its table and column. */
  predicate FirstOfColumn(rows: seq<Row>, i: int)
    requires 0 <= i < |rows|
  {
    forall j :: 0 <= j < i ==> TableOf(rows[j]) != TableOf(rows[i]) || ColumnOf(rows[j]) != ColumnOf(rows[i])
  }

  /** The columns of table `t` are exactly the columns its rows name. */
  lemma {:induction false} ColumnsOfKeys(rows: seq<Row>, t: string)
    ensures forall c :: c in ColumnsOf(rows, t) <==>
      exists i :: 0 <= i < |rows| && TableOf(rows[i]) == t && ColumnOf(rows[i]) == c
  {
    if |rows| > 0 {
      var n := |rows| - 1;
      var init := rows[..n];
      ColumnsOfKeys(init, t);
      forall c ensures c in ColumnsOf(rows, t) <==>
        exists i :: 0 <= i < |rows| && TableOf(rows[i]) == t && ColumnOf(rows[i]) == c
      {
        if c in ColumnsOf(init, t) {
          var i :| 0 <= i < |init| && TableOf(init[i]) == t && ColumnOf(init[i]) == c;
          assert rows[i] == init[i];
        }
        if exists i :: 0 <= i < |rows| && TableOf(rows[i]) == t && ColumnOf(rows[i]) == c {
          var i :| 0 <= i < |rows| && TableOf(rows[i]) == t && ColumnOf(rows[i]) == c;
          if i < n {
            assert init[i] == rows[i];
          }
        }
      }
    }
  }

  /** Each column of table `t` has the attributes of its first row. */
  lemma {:induction false} ColumnsOfValues(rows: seq<Row>, t: string)
    ensures forall i :: 0 <= i < |rows| && TableOf(rows[i]) == t && FirstOfColumn(rows, i) ==>
      ColumnOf(rows[i]) in ColumnsOf(rows, t) && ColumnsOf(rows, t)[ColumnOf(rows[i])] == AttributesOf(rows[i])
  {
    if |rows| > 0 {
      var n := |rows| - 1;
      var init := rows[..n];
      var m := ColumnsOf(init, t);
      forall i | 0 <= i < |rows| && TableOf(rows[i]) == t && FirstOfColumn(rows, i)
        ensures ColumnOf(rows[i]) in ColumnsOf(rows, t) && ColumnsOf(rows, t)[ColumnOf(rows[i])] == AttributesOf(rows[i])
      {
        if i < n {
          assert init[i] == rows[i];
          assert FirstOfColumn(init, i) by {
            forall j | 0 <= j < i
              ensures TableOf(init[j]) != TableOf(init[i]) || ColumnOf(init[j]) != ColumnOf(init[i])
            {
              assert init[j] == rows[j];
            }
          }
          ColumnsOfValues(init, t);
          assert ColumnOf(init[i]) in m && m[ColumnOf(init[i])] == AttributesOf(init[i]);
        } else {
          ColumnsOfKeys(init, t);
        }
      }
    }
  }

  /** The rows of each table are adjacent, as `ORDER BY table_name` makes
    * them. */
  predicate Grouped(rows: seq<Row>)
  {
    forall i, j, k :: 0 <= i < j < k < |rows| && TableOf(rows[i]) == TableOf(rows[k]) ==>
      TableOf(rows[j]) == TableOf(rows[i])
  }

  /** Every row names a table. */
  predicate Named(rows: seq<Row>)
  {
    forall i :: 0 <= i < |rows| ==> TableOf(rows[i]) != ""
  }

  /** `columns` extended with the tables in `tables` built from `rows`,
    * existing tables untouched. */
  function Extend(columns: Schema, rows: seq<Row>, tables: set<string>): Schema
  {
    map t | t in columns.Keys + tables :: if t in columns then columns[t] else ColumnsOf(rows, t)
  }

  lemma {:induction false} ColumnsOfAbsent(rows: seq<Row>, t: string)
    requires t !in TablesOf(rows)
    ensures ColumnsOf(rows, t) == map[]
  {
    if |rows| > 0 {
      var init := rows[..|rows| - 1];
      assert TablesOf(init) <= TablesOf(rows) by {
        forall x | x in TablesOf(init) ensures x in TablesOf(rows) {
          var i :| 0 <= i < |init| && TableOf(init[i]) == x;
          assert init[i] == rows[i];
        }
      }
      ColumnsOfAbsent(init, t);
      assert TableOf(rows[|rows| - 1]) in TablesOf(rows);
    }
  }

  lemma TablesOfAppend(rows: seq<Row>, row: Row)
    ensures TablesOf(rows + [row]) == TablesOf(rows) + {TableOf(row)}
  {
    var p := rows + [row];
    forall x | x in TablesOf(p) ensures x in TablesOf(rows) + {TableOf(row)} {
      var i :| 0 <= i < |p| && TableOf(p[i]) == x;
      if i < |rows| { assert p[i] == rows[i]; }
    }
    forall x | x in TablesOf(rows) ensures x in TablesOf(p) {
      var i :| 0 <= i < |rows| && TableOf(rows[i]) == x;
      assert p[i] == rows[i];
    }
    assert TableOf(p[|rows|]) == TableOf(row);
  }

  /** Tables other than the last row's are the same with or without it. */
  lemma ExtendWithoutLast(columns: Schema, rows: seq<Row>, tables: set<string>)
    requires |rows| > 0 && TableOf(rows[|rows| - 1]) !in tables
    ensures Extend(columns, rows, tables) == Extend(columns, rows[..|rows| - 1], tables)
  {
    forall t | t in tables ensures ColumnsOf(rows, t) == ColumnsOf(rows[..|rows| - 1], t) {
      ColumnsOfLast(rows, t);
    }
  }

  lemma ExtendInsert(columns: Schema, rows: seq<Row>, tables: set<string>, t: string)
    ensures InsertNew(Extend(columns, rows, tables), t, ColumnsOf(rows, t)) == Extend(columns, rows, tables + {t})
  {
  }

  lemma ColumnsOfLast(rows: seq<Row>, t: string)
    requires |rows| > 0 && TableOf(rows[|rows| - 1]) != t
    ensures ColumnsOf(rows, t) == ColumnsOf(rows[..|rows| - 1], t)
  {
  }

  /** In grouped rows, a table different from the one of the last row does
    * not follow it. */
  lemma NewTableIsNew(rows: seq<Row>)
    requires |rows| >= 2 && Grouped(rows)
    requires TableOf(rows[|rows| - 2]) != TableOf(rows[|rows| - 1])
    ensures TableOf(rows[|rows| - 1]) !in TablesOf(rows[..|rows| - 1])
  {
    var init := rows[..|rows| - 1];
    var t := TableOf(rows[|rows| - 1]);
    if t in TablesOf(init) {
      var i :| 0 <= i < |init| && TableOf(init[i]) == t;
      assert false;
    }
  }

  /** The loop state after a non-empty prefix of grouped, named rows: the
    * current table is the last row's, its map holds that table's columns
    * so far, and the catalog holds every earlier table. */
  predicate ScannedGrouped(columns: Schema, rows: seq<Row>)
    requires |rows| > 0
  {
    var last := TableOf(rows[|rows| - 1]);
    ScanRows(columns, rows)
      == ScanState(Extend(columns, rows, TablesOf(rows) - {last}), last, ColumnsOf(rows, last))
  }

  /** A row of the current table adds its column to the current map. */
  lemma ScanSameTable(columns: Schema, rows: seq<Row>)
    requires |rows| >= 2
    requires TableOf(rows[|rows| - 2]) == TableOf(rows[|rows| - 1])
    requires ScannedGrouped(columns, rows[..|rows| - 1])
    ensures ScannedGrouped(columns, rows)
  {
    var init := rows[..|rows| - 1];
    var row := rows[|rows| - 1];
    var t := TableOf(row);
    assert init[|init| - 1] == rows[|rows| - 2];
    assert rows == init + [row];
    TablesOfAppend(init, row);
    assert t in TablesOf(init);
    assert TablesOf(rows) == TablesOf(init);
    ExtendWithoutLast(columns, rows, TablesOf(rows) - {t});
  }

  /** A row of a new table saves the current one and starts a map of its
    * own. */
  lemma ScanNewTable(columns: Schema, rows: seq<Row>)
    requires |rows| >= 2 && Grouped(rows) && Named(rows)
    requires TableOf(rows[|rows| - 2]) != TableOf(rows[|rows| - 1])
    requires ScannedGrouped(columns, rows[..|rows| - 1])
    ensures ScannedGrouped(columns, rows)
  {
    var init := rows[..|rows| - 1];
    var row := rows[|rows| - 1];
    var t := TableOf(row);
    var last := TableOf(init[|init| - 1]);
    assert init[|init| - 1] == rows[|rows| - 2];
    assert last != "";
    assert rows == init + [row];
    TablesOfAppend(init, row);
    NewTableIsNew(rows);
    ColumnsOfAbsent(init, t);
    assert TablesOf(rows) - {t} == TablesOf(init);
    ExtendWithoutLast(columns, rows, TablesOf(rows) - {t});
    ExtendInsert(columns, init, TablesOf(init) - {last}, last);
    assert last in TablesOf(init);
    assert TablesOf(init) - {last} + {last} == TablesOf(init);
  }

  lemma {:induction false} ScanGrouped(columns: Schema, rows: seq<Row>)
    requires |rows| > 0 && Grouped(rows) && Named(rows)
    ensures ScannedGrouped(columns, rows)
    decreases |rows|
  {
    var init := rows[..|rows| - 1];
    if |init| == 0 {
      var t := TableOf(rows[0]);
      assert rows == init + [rows[0]];
      TablesOfAppend(init, rows[0]);
      assert TablesOf(rows) - {t} == {};
      assert Extend(columns, rows, {}) == columns;
    } else {
      assert Grouped(init) && Named(init) by {
        assert forall i :: 0 <= i < |init| ==> init[i] == rows[i];
      }
      ScanGrouped(columns, init);
      if TableOf(rows[|rows| - 2]) == TableOf(rows[|rows| - 1]) {
        ScanSameTable(columns, rows);
      } else {
        ScanNewTable(columns, rows);
      }
    }
  }

  /** For grouped rows that all name a table, reading the information schema
    * adds one entry per table the rows name, holding that table's columns,
    * and leaves every table already present alone. */
  lemma ReadSchemaGrouped(columns: Schema, rows: seq<Row>)
    requires Grouped(rows) && Named(rows)
    ensures ReadSchema(columns, rows) == Extend(columns, rows, TablesOf(rows))
  {
    if |rows| == 0 {
      assert TablesOf(rows) == {};
      assert Extend(columns, rows, {}) == columns;
    } else {
      ScanGrouped(columns, rows);
      var last := TableOf(rows[|rows| - 1]);
      assert last in TablesOf(rows);
      ExtendInsert(columns, rows, TablesOf(rows) - {last}, last);
      assert TablesOf(rows) - {last} + {last} == TablesOf(rows);
    }
  }

  // ---------------------------------------------------------------------
  // Lookups

  /** The names of a table's columns in ascending order; fails for a table
    * the catalog does not hold. */
  function GetColumnNames(columns: Schema, table: string): (r: Result<seq<string>>)
    ensures r.Ok? <==> table in columns
    ensures r.Ok? ==> forall c :: c in r.value <==> c in columns[table]
  {
    if table !in columns then Err("Tried to get column names for table \"" + table + "\" which doesn't exist")
    else Ok(SortedKeys(columns[table].Keys))
  }

  /** The column names come in ascending order, each once. */
  lemma ColumnNamesAscending(columns: Schema, table: string)
    requires table in columns
    ensures StrictlySorted(GetColumnNames(columns, table).value)
    ensures |GetColumnNames(columns, table).value| == |columns[table]|
  {
  }

  /** A column's `column_default` attribute; fails for an unknown table or
    * column, and for a column whose attribute map lacks `column_default`
    * (where the C++ code dereferences a past-the-end iterator). */
  function GetColumnDefault(columns: Schema, table: string, column: string): (r: Result<Variant>)
    ensures r.Ok? <==> table in columns && column in columns[table] && "column_default" in columns[table][column]
    ensures r.Ok? ==> r.value == columns[table][column]["column_default"]
  {
    if table !in columns then Err("Tried to get default column value from table \"" + table + "\" which doesn't exist")
    else if column !in columns[table] then Err("Tried to get default column value for \"" + table + "." + column + "\" which doesn't exist")
    else if "column_default" !in columns[table][column] then Err("column_default attribute missing")
    else Ok(columns[table][column]["column_default"])
  }

  /** Whether a column's `is_nullable` attribute reads "YES"; fails like
    * `GetColumnDefault`. */
  function IsColumnNullable(columns: Schema, table: string, column: string): (r: Result<bool>)
    ensures r.Ok? <==> table in columns && column in columns[table] && "is_nullable" in columns[table][column]
    ensures r.Ok? ==> (r.value <==> columns[table][column]["is_nullable"].ToString() == "YES")
  {
    if table !in columns then Err("Tried to get column nullable from table \"" + table + "\" which doesn't exist")
    else if column !in columns[table] then Err("Tried to get column nullable for \"" + table + "." + column + "\" which doesn't exist")
    else if "is_nullable" !in columns[table][column] then Err("is_nullable attribute missing")
    else Ok(columns[table][column]["is_nullable"].ToString() == "YES")
  }

  /** Whether an existing column is a foreign key: its name has at least three
    * characters and ends in "_id". */
  function IsColumnForeignKey(columns: Schema, table: string, column: string): (r: Result<bool>)
    ensures r.Ok? <==> table in columns && column in columns[table]
    ensures r.Ok? ==> (r.value <==> |column| >= 3 && column[|column| - 3..] == "_id")
  {
    if table !in columns then Err("Tried to get column foreign key from table \"" + table + "\" which doesn't exist")
    else if column !in columns[table] then Err("Tried to get column foreign key for \"" + table + "." + column + "\" which doesn't exist")
    else Ok(EndsWith(column, "_id"))
  }

  /** After reading grouped, named rows into a catalog that did not hold
    * table `t`, `t`'s column names are the columns its rows name, in
    * ascending order. */
  lemma ColumnNamesAfterRead(columns: Schema, rows: seq<Row>, t: string)
    requires Grouped(rows) && Named(rows)
    requires t in TablesOf(rows) && t !in columns
    ensures var r := GetColumnNames(ReadSchema(columns, rows), t);
      && r.Ok?
      && StrictlySorted(r.value)
      && (forall c :: c in r.value <==>
            exists j :: 0 <= j < |rows| && TableOf(rows[j]) == t && ColumnOf(rows[j]) == c)
  {
    ReadSchemaGrouped(columns, rows);
    var r := ReadSchema(columns, rows);
    assert r[t] == ColumnsOf(rows, t);
    ColumnsOfKeys(rows, t);
  }

  /** After reading grouped, named rows into a catalog that did not hold the
    * table of row `i`, the default of that row's column is the row's first
    * `column_default` field, provided row `i` is the first row of its
    * column. */
  lemma DefaultAfterRead(columns: Schema, rows: seq<Row>, i: int, k: int)
    requires Grouped(rows) && Named(rows)
    requires 0 <= i < |rows| && TableOf(rows[i]) !in columns && FirstOfColumn(rows, i)
    requires 2 <= k < |rows[i]| && rows[i][k].name == "column_default"
    requires forall j :: 2 <= j < k ==> rows[i][j].name != "column_default"
    ensures GetColumnDefault(ReadSchema(columns, rows), TableOf(rows[i]), ColumnOf(rows[i])) == Ok(rows[i][k].value)
  {
    var t := TableOf(rows[i]);
    ReadSchemaGrouped(columns, rows);
    var r := ReadSchema(columns, rows);
    assert t in TablesOf(rows);
    assert r[t] == ColumnsOf(rows, t);
    ColumnsOfValues(rows, t);
    var attrs := AttributesOf(rows[i]);
    assert r[t][ColumnOf(rows[i])] == attrs;
    var fields := rows[i][2..];
    assert attrs == FieldMap(fields);
    assert fields[k - 2] == rows[i][k];
    assert FirstOfName(fields, k - 2);
    FieldMapValues(fields);
    assert attrs["column_default"] == rows[i][k].value;
  }

  // ---------------------------------------------------------------------
  // The connection

  /** One iteration of the reading loop of `ReadInformationSchema`, on the
    * catalog and the loop's two variables. */
  method ScanStep(columns: Schema, tableName: string, tableMap: TableColumns, row: Row)
      returns (columns': Schema, tableName': string, tableMap': TableColumns)
    ensures ScanState(columns', tableName', tableMap') == ScanRow(ScanState(columns, tableName, tableMap), row)
  {
    columns', tableName', tableMap' := columns, tableName, tableMap;
    if tableName' != DataValue(row, 0).ToString() {
      if |tableName'| != 0 {
        columns' := InsertNew(columns', tableName', tableMap');
      }
      tableName' := DataValue(row, 0).ToString();
      tableMap' := map[];
    }
    var columnMap := ReadAttributes(row);
    tableMap' := InsertNew(tableMap', DataValue(row, 1).ToString(), columnMap);
  }

  /** The inner loop of `ReadInformationSchema`: the fields of a row from
    * index 2 on, inserted one by one into the row's attribute map. */
  method ReadAttributes(row: Row) returns (columnMap: Attributes)
    ensures columnMap == AttributesOf(row)
  {
    columnMap := map[];
    var c := 2;
    while c < |row|
      invariant c == 2 || 2 < c <= |row|
      invariant columnMap == if |row| <= 2 then map[] else FieldMap(row[2..c])
    {
      assert row[2..c + 1] == row[2..c] + [row[c]];
      columnMap := InsertNew(columnMap, row[c].name, row[c].value);
      c := c + 1;
    }
    assert |row| > 2 ==> row[2..c] == row[2..];
  }

  class Database {
    /** Rows a read query returns after the given writes. */
    const backend: (seq<string>, string) -> seq<Row>
    /** The driver's `EscapeString`. */
    const escape: string -> string
    /** Whether `Open` succeeds for (name, user, password, host, port). */
    const accepts: (string, string, string, string, int) -> bool

    var name: string
    var connected: bool
    /** `Columns`: table -> column -> attribute -> value. */
    var columns: Schema
    /** The write statements executed so far, oldest first. */
    var writes: seq<string>

    constructor(backend: (seq<string>, string) -> seq<Row>, escape: string -> string,
                accepts: (string, string, string, string, int) -> bool)
      ensures this.backend == backend && this.escape == escape && this.accepts == accepts
      ensures name == "" && !connected && columns == map[] && writes == []
    {
      this.backend := backend;
      this.escape := escape;
      this.accepts := accepts;
      name := "";
      connected := false;
      columns := map[];
      writes := [];
    }

    /** The rows a read query returns now; nothing without a connection. */
    function Answer(sql: string): seq<Row>
      reads this
    {
      if connected then backend(writes, sql) else []
    }

    /** Runs a read query. */
    method Query(sql: string) returns (rows: seq<Row>)
      ensures rows == Answer(sql)
    {
      rows := if connected then backend(writes, sql) else [];
    }

    /** Runs a write statement; without a connection it has no effect. */
    method Execute(sql: string)
      modifies this`writes
      ensures writes == old(writes) + (if connected then [sql] else [])
    {
      if connected {
        writes := writes + [sql];
      } else {
        assert writes + [] == writes;
      }
    }

    /** Opens the connection and reads the schema catalog; the result is
      * whether the server accepted the parameters. A refused connection reads
      * no rows and leaves the catalog as it was. */
    method Connect(name: string, user: string, pass: string, host: string, port: int) returns (success: bool)
      modifies this`name, this`connected, this`columns
      ensures this.name == name && connected == accepts(name, user, pass, host, port)
      ensures success == connected
      ensures columns == ReadSchema(old(columns), Answer(SchemaQuery(name, escape)))
      ensures !success ==> columns == old(columns)
    {
      this.name := name;
      connected := accepts(name, user, pass, host, port);
      ReadInformationSchema();
      success := connected;
    }

    /** Reads `information_schema.columns` for this database into the
      * catalog, grouping rows by table name. */
    method ReadInformationSchema()
      modifies this`columns
      ensures columns == ReadSchema(old(columns), Answer(SchemaQuery(name, escape)))
    {
      var rows := Query(SchemaQuery(name, escape));
      var tableName := "";
      var tableMap: TableColumns := map[];
      var i := 0;
      while i < |rows|
        invariant 0 <= i <= |rows|
        invariant ScanState(columns, tableName, tableMap) == ScanRows(old(columns), rows[..i])
      {
        columns, tableName, tableMap := ScanStep(columns, tableName, tableMap, rows[i]);
        ScanRowsStep(old(columns), rows, i);
        i := i + 1;
      }
      assert rows[..i] == rows;
      if |tableName| != 0 {
        columns := InsertNew(columns, tableName, tableMap);
      }
    }
  }
}
