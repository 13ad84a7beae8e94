/** The generic active record (`Birch::ActiveRecord`): a map from column
  * name to value kept in step with one table of the schema catalog, and the
  * SQL statements that load, save and remove it. The four concrete classes
  * differ in their table name and, for `User`, in `SetVariant`, which
  * stores a hash instead of a password; the class is represented by `kind`.
  *
  * Every method that reaches the database takes the application's
  * `Database` object; `User`'s `SetVariant` takes the `hashString`
  * function as `hash`. An exception thrown by the C++ code is an `Err`
  * result here, with the state changes made before the throw kept. */
module Records {
  import opened Wrappers
  import opened Variants
  import opened Text
  import opened Sql
  import opened Database
  import opened Registry

  // ---------------------------------------------------------------------
  // What the record holds

  /** The values `Initialize` gives a record of `table`: one entry per column
    * of the catalog, holding that column's default. Fails where the catalog
    * lookups fail: an unknown table or a column without a default. */
  function InitialValues(columns: Schema, table: string): (r: Result<map<string, Variant>>)
    ensures r.Ok? <==> table in columns && forall c :: c in columns[table] ==> "column_default" in columns[table][c]
    ensures r.Ok? ==> forall c :: c in r.value <==> c in GetColumnNames(columns, table).value
    ensures r.Ok? ==> forall c :: c in r.value ==> r.value[c] == GetColumnDefault(columns, table, c).value
  {
    if table !in columns then Err("Tried to get column names for table \"" + table + "\" which doesn't exist")
    else if exists c :: c in columns[table] && "column_default" !in columns[table][c] then
      Err("column_default attribute missing")
    else Ok(map c | c in columns[table] :: columns[table][c]["column_default"])
  }

  /** A catalog lookup that fails for one column makes `InitialValues`
    * fail. */
  lemma InitialValuesMissingDefault(columns: Schema, table: string, c: string)
    requires table in columns && c in columns[table] && "column_default" !in columns[table][c]
    ensures InitialValues(columns, table).Err?
  {
    assert exists x :: x in columns[table] && "column_default" !in columns[table][x];
  }

  /** A map with one entry per column of `table`, holding its default, is
    * what `InitialValues` gives. */
  lemma InitialValuesOfDefaults(columns: Schema, table: string, cols: seq<string>, values: map<string, Variant>)
    requires table in columns && forall c :: c in cols <==> c in columns[table]
    requires DefaultsOf(columns[table], cols, values)
    ensures InitialValues(columns, table) == Ok(values)
  {
    assert values.Keys == columns[table].Keys;
    assert !exists c :: c in columns[table] && "column_default" !in columns[table][c];
    assert values == map c | c in columns[table] :: columns[table][c]["column_default"];
  }

  /** The two audit columns `Load` does not copy into a record. */
  predicate IsTimestamp(name: string)
  {
    name == "create_timestamp" || name == "update_timestamp"
  }

  /** The values `Load` copies from a result row: every field except the
    * audit columns, the first field of a name winning. */
  function RowValues(row: Row): map<string, Variant>
  {
    FieldMap(row) - {"create_timestamp", "update_timestamp"}
  }

  /** The columns of a loaded row are its field names but the audit
    * columns, each holding the value of its first field. */
  lemma RowValuesContents(row: Row)
    ensures forall k :: k in RowValues(row) <==> !IsTimestamp(k) && exists i :: 0 <= i < |row| && row[i].name == k
    ensures forall i :: 0 <= i < |row| && !IsTimestamp(row[i].name) && FirstOfName(row, i) ==>
      RowValues(row)[row[i].name] == row[i].value
  {
    FieldMapKeys(row);
    FieldMapValues(row);
  }

  /** What `User::SetVariant` stores: a valid password is replaced by its
    * hash; every other value, and every value of another class, is stored
    * as given. */
  function StoredValue(kind: RecordType, hash: string -> string, column: string, value: Variant): (v: Variant)
    ensures kind == User && column == "password" && value.IsValid() ==> v == Str(hash(value.ToString()))
    ensures kind != User || column != "password" || !value.IsValid() ==> v == value
  {
    if kind == User && column == "password" && value.IsValid() then Str(hash(value.ToString())) else value
  }

  /** `AssertPrimaryId` passes: the id is not NULL and does not read as 0. */
  predicate IsPrimaryId(id: Variant)
  {
    id.IsValid() && id.ToInt() != 0
  }

  // ---------------------------------------------------------------------
  // Statements

  /** The entries of `m` under `keys`, in the order of `keys`. */
  function Entries(keys: seq<string>, m: map<string, string>): (r: seq<(string, string)>)
    requires forall k :: k in keys ==> k in m
    ensures |r| == |keys| && forall i :: 0 <= i < |keys| ==> r[i] == (keys[i], m[keys[i]])
  {
    seq(|keys|, i requires 0 <= i < |keys| => (keys[i], m[keys[i]]))
  }

  /** The conditions of `Load(map)`: the map's entries in key order. */
  function Conditions(m: map<string, string>): (r: seq<(string, string)>)
    ensures |r| == |m|
    ensures forall i :: 0 <= i < |r| ==> r[i].0 in m && r[i].1 == m[r[i].0]
    ensures forall k :: k in m ==> exists i :: 0 <= i < |r| && r[i].0 == k
    ensures forall i, j :: 0 <= i < j < |r| ==> Less(r[i].0, r[j].0)
  {
    var keys := SortedKeys(m.Keys);
    EntriesOfSortedKeys(keys, m);
    Entries(keys, m)
  }

  lemma EntriesOfSortedKeys(keys: seq<string>, m: map<string, string>)
    requires StrictlySorted(keys) && (forall k :: k in keys <==> k in m) && |keys| == |m.Keys|
    ensures var r := Entries(keys, m);
      && |r| == |m|
      && (forall i :: 0 <= i < |r| ==> r[i].0 in m && r[i].1 == m[r[i].0])
      && (forall k :: k in m ==> exists i :: 0 <= i < |r| && r[i].0 == k)
      && (forall i, j :: 0 <= i < j < |r| ==> Less(r[i].0, r[j].0))
  {
    var r := Entries(keys, m);
    forall k | k in m ensures exists i :: 0 <= i < |r| && r[i].0 == k {
      var i :| 0 <= i < |keys| && keys[i] == k;
      assert r[i].0 == k;
    }
  }

  /** A single-entry map makes a single condition, so `Load(key, value)` and
    * `Load(pair)` select on exactly that column. */
  lemma ConditionsOfOne(key: string, value: string)
    ensures Conditions(map[key := value]) == [(key, value)]
  {
    var r := Conditions(map[key := value]);
    assert |r| == 1 && r[0].0 in map[key := value];
  }

  /** A two-entry map makes two conditions, the lesser key first. */
  lemma ConditionsOfTwo(k1: string, v1: string, k2: string, v2: string)
    requires Less(k1, k2)
    ensures Conditions(map[k1 := v1, k2 := v2]) == [(k1, v1), (k2, v2)]
  {
    LessIrreflexive(k1);
    LessAsymmetric(k1, k2);
    var m := map[k1 := v1, k2 := v2];
    assert m.Keys == {k1, k2};
    var r := Conditions(m);
    assert |r| == 2;
    assert Less(r[0].0, r[1].0);
  }

  /** The text of two conditions. */
  lemma WhereClauseOfTwo(c1: (string, string), c2: (string, string), escape: string -> string)
    ensures WhereClause([c1, c2], escape) == " WHERE " + c1.0 + " = " + escape(c1.1) + " AND " + c2.0 + " = " + escape(c2.1)
  {
    var cs := [c1, c2];
    assert cs[..0] == [] && cs[..2] == cs;
    WhereClauseStep(cs, 0, escape);
    WhereClauseStep(cs, 1, escape);
  }

  /** The query `Load(conds)` sends for a record of `table`. */
  function LoadText(table: string, conds: map<string, string>, escape: string -> string): string
  {
    Render(Select(table, Conditions(conds)), escape)
  }

  /** The query `Load(key, value)` sends: a SELECT with one condition. */
  function KeyText(table: string, key: string, value: string, escape: string -> string): string
  {
    "SELECT * FROM " + table + (" WHERE " + key + " = " + escape(value))
  }

  /** `Load(key, value)` is `Load` with the one-entry map. */
  lemma KeyTextIsLoadText(table: string, key: string, value: string, escape: string -> string)
    ensures KeyText(table, key, value, escape) == LoadText(table, map[key := value], escape)
  {
    ConditionsOfOne(key, value);
    var cs := [(key, value)];
    assert cs[..0] == [];
  }

  /** How a value appears in a SET list. */
  function SqlValueOf(v: Variant): SqlValue
  {
    if v.IsValid() then Quoted(v.ToString()) else SqlNull
  }

  /** The SET list `Save` builds from `keys`, skipping `id`. */
  function AssignmentsOf(keys: seq<string>, values: map<string, Variant>): seq<Assignment>
    requires forall k :: k in keys ==> k in values
  {
    if |keys| == 0 then []
    else
      var k := keys[|keys| - 1];
      AssignmentsOf(keys[..|keys| - 1], values) + (if k == "id" then [] else [Assignment(k, SqlValueOf(values[k]))])
  }

  lemma {:induction false} AssignmentsOfColumns(keys: seq<string>, values: map<string, Variant>)
    requires forall k :: k in keys ==> k in values
    ensures forall a :: a in AssignmentsOf(keys, values) ==>
      a.column in keys && a.column != "id" && a.value == SqlValueOf(values[a.column])
    ensures forall k :: k in keys && k != "id" ==> exists a :: a in AssignmentsOf(keys, values) && a.column == k
  {
    if |keys| > 0 {
      var init := keys[..|keys| - 1];
      var k := keys[|keys| - 1];
      AssignmentsOfColumns(init, values);
      assert keys == init + [k];
      if k != "id" {
        assert Assignment(k, SqlValueOf(values[k])) in AssignmentsOf(keys, values);
      }
    }
  }

  /** The columns of a SET list are in strictly ascending order. */
  predicate ColumnsSorted(r: seq<Assignment>)
  {
    forall i, j :: 0 <= i < j < |r| ==> Less(r[i].column, r[j].column)
  }

  lemma {:induction false} AssignmentsOfSorted(keys: seq<string>, values: map<string, Variant>)
    requires forall k :: k in keys ==> k in values
    requires StrictlySorted(keys)
    ensures ColumnsSorted(AssignmentsOf(keys, values))
  {
    if |keys| > 0 {
      var init := keys[..|keys| - 1];
      var k := keys[|keys| - 1];
      AssignmentsOfSorted(init, values);
      AssignmentsOfColumns(init, values);
      var p := AssignmentsOf(init, values);
      var r := AssignmentsOf(keys, values);
      assert init == keys[..|keys| - 1];
      if k == "id" {
        assert r == p;
      } else {
        var a := Assignment(k, SqlValueOf(values[k]));
        assert r == p + [a];
        forall i | 0 <= i < |p| ensures Less(r[i].column, k) {
          assert r[i] == p[i] && p[i] in p;
          var m :| 0 <= m < |init| && init[m] == p[i].column;
          assert keys[m] == init[m];
        }
        forall i, j | 0 <= i < j < |r| ensures Less(r[i].column, r[j].column) {
          if j < |p| {
            assert r[i] == p[i] && r[j] == p[j];
          }
        }
      }
    }
  }

  /** The SET list of `Save`: every column but `id`, in key order, a NULL
    * value written as NULL and any other as its escaped text. */
  function SaveAssignments(values: map<string, Variant>): (r: seq<Assignment>)
    ensures forall a :: a in r ==> a.column in values && a.column != "id" && a.value == SqlValueOf(values[a.column])
    ensures forall k :: k in values && k != "id" ==> exists a :: a in r && a.column == k
    ensures ColumnsSorted(r)
  {
    var keys := SortedKeys(values.Keys);
    AssignmentsOfColumns(keys, values);
    AssignmentsOfSorted(keys, values);
    AssignmentsOf(keys, values)
  }

  /** The statement `Save` executes for a record of `table` with the SET
    * list `assignments` and the id `id`: an INSERT that also sets
    * `create_timestamp` for an id that is not a primary id, an UPDATE of
    * that id otherwise. */
  function SaveStatement(table: string, assignments: seq<Assignment>, id: Variant): (s: Statement)
    ensures s.Insert? <==> !IsPrimaryId(id)
    ensures s.Insert? ==> s.assignments == assignments + [Assignment("create_timestamp", SqlNull)]
    ensures s.Update? ==> s.assignments == assignments && s.id == id.ToString()
    ensures (s.Insert? || s.Update?) && s.table == table
  {
    if !id.IsValid() || id.ToInt() == 0 then
      Insert(table, assignments + [Assignment("create_timestamp", SqlNull)])
    else Update(table, assignments, id.ToString())
  }

  // ---------------------------------------------------------------------
  // The record

  /** `values` holds the default of each of `cols` and nothing else. */
  ghost predicate DefaultsOf(table: TableColumns, cols: seq<string>, values: map<string, Variant>)
  {
    && (forall c :: c in values <==> c in cols)
    && forall c :: c in values ==> c in table && "column_default" in table[c] && values[c] == table[c]["column_default"]
  }

  lemma DefaultsOfStep(table: TableColumns, cols: seq<string>, values: map<string, Variant>, c: string)
    requires DefaultsOf(table, cols, values)
    requires c in table && "column_default" in table[c]
    ensures DefaultsOf(table, cols + [c], InsertNew(values, c, table[c]["column_default"]))
  {
  }

  lemma WholePrefix<T>(s: seq<T>, i: int)
    requires i == |s|
    ensures s[..i] == s
  {
  }

  /** `Initialize`: reads each column's default from the catalog, in
    * column order. On failure `m` holds the defaults read before it. */
  method CollectDefaults(columns: Schema, table: string) returns (m: map<string, Variant>, r: Result<()>)
    ensures r.Ok? <==> InitialValues(columns, table).Ok?
    ensures r.Ok? ==> m == InitialValues(columns, table).value
  {
    m := map[];
    var names := GetColumnNames(columns, table);
    if names.Err? {
      return m, Err(names.msg);
    }
    ghost var bad;
    m, r, bad := DefaultsLoop(columns, table, names.value);
    if r.Ok? {
      InitialValuesOfDefaults(columns, table, names.value, m);
    } else {
      InitialValuesMissingDefault(columns, table, bad);
    }
  }

  /** The loop of `Initialize` over the column names `cols`; on failure
    * `bad` is the column without a default. */
  method DefaultsLoop(columns: Schema, table: string, cols: seq<string>)
      returns (m: map<string, Variant>, r: Result<()>, ghost bad: string)
    requires table in columns && forall c :: c in cols ==> c in columns[table]
    ensures r.Ok? ==> DefaultsOf(columns[table], cols, m)
    ensures r.Err? ==> bad in columns[table] && "column_default" !in columns[table][bad]
  {
    m := map[];
    bad := "";
    ghost var entry := columns[table];
    var i := 0;
    while i < |cols|
      invariant 0 <= i <= |cols|
      invariant DefaultsOf(entry, cols[..i], m)
    {
      var d := GetColumnDefault(columns, table, cols[i]);
      if d.Err? {
        return m, Err(d.msg), cols[i];
      }
      DefaultsOfStep(entry, cols[..i], m, cols[i]);
      m := InsertNew(m, cols[i], d.value);
      assert cols[..i + 1] == cols[..i] + [cols[i]];
      i := i + 1;
    }
    WholePrefix(cols, i);
    r := Ok(());
  }

  /** Adding the condition at `i` to the WHERE clause of those before it. */
  lemma WhereClauseStep(cs: seq<(string, string)>, i: int, escape: string -> string)
    requires 0 <= i < |cs|
    ensures WhereClause(cs[..i + 1], escape) ==
      WhereClause(cs[..i], escape) + (if i == 0 then " WHERE " else " AND ") + cs[i].0 + " = " + escape(cs[i].1)
  {
    assert cs[..i + 1][..i] == cs[..i];
  }

  /** The WHERE loop of `Load(map)`: appends the conditions `cs`, in order,
    * to the SELECT. */
  method WhereLoop(table: string, cs: seq<(string, string)>, escape: string -> string) returns (sql: string)
    ensures sql == "SELECT * FROM " + table + WhereClause(cs, escape)
  {
    var clause := "";
    var i := 0;
    while i < |cs|
      invariant 0 <= i <= |cs|
      invariant clause == WhereClause(cs[..i], escape)
    {
      WhereClauseStep(cs, i, escape);
      clause := clause + (if i == 0 then " WHERE " else " AND ") + cs[i].0 + " = " + escape(cs[i].1);
      i := i + 1;
    }
    WholePrefix(cs, i);
    sql := "SELECT * FROM " + table + clause;
  }

  /** The query text of `Load(map)`: the map's entries, in key order, as
    * conditions. */
  method SelectText(table: string, conds: map<string, string>, escape: string -> string) returns (sql: string)
    ensures sql == LoadText(table, conds, escape)
  {
    sql := WhereLoop(table, Conditions(conds), escape);
  }

  /** One more field of a row, as the field loop of `Load` treats it. */
  lemma RowValuesStep(row: Row, c: int)
    requires 0 <= c < |row|
    ensures FieldMap(row[..c + 1]) - {"create_timestamp", "update_timestamp"} ==
      if IsTimestamp(row[c].name) then FieldMap(row[..c]) - {"create_timestamp", "update_timestamp"}
      else InsertNew(FieldMap(row[..c]) - {"create_timestamp", "update_timestamp"}, row[c].name, row[c].value)
  {
    assert row[..c + 1][..c] == row[..c];
  }

  /** The field loop of `Load`: copies every field of `row` except the audit
    * columns into an empty map, the first field of a name winning. */
  method ReadRow(row: Row) returns (m: map<string, Variant>)
    ensures m == RowValues(row)
  {
    m := map[];
    var c := 0;
    while c < |row|
      invariant 0 <= c <= |row|
      invariant m == FieldMap(row[..c]) - {"create_timestamp", "update_timestamp"}
    {
      RowValuesStep(row, c);
      var column := row[c].name;
      if column != "create_timestamp" && column != "update_timestamp" {
        m := InsertNew(m, column, row[c].value);
      }
      c := c + 1;
    }
    WholePrefix(row, c);
  }

  /** Adding an assignment to a SET list. */
  lemma SetListAppend(xs: seq<Assignment>, a: Assignment, escape: string -> string)
    ensures SetList(xs + [a], escape) ==
      SetList(xs, escape) + (if |xs| == 0 then "" else ", ") + a.column + " = " + RenderValue(a.value, escape)
  {
    assert (xs + [a])[..|xs|] == xs;
  }

  /** The SET list and the `first` flag after the loop of `Save` has seen
    * the first `i` of `keys`. */
  predicate SetListUpTo(keys: seq<string>, values: map<string, Variant>, escape: string -> string, i: int, s: string, first: bool)
    requires 0 <= i <= |keys| && forall k :: k in keys ==> k in values
  {
    s == SetList(AssignmentsOf(keys[..i], values), escape) && (first <==> |AssignmentsOf(keys[..i], values)| == 0)
  }

  /** One iteration of the SET loop of `Save`: `id` is skipped, any other
    * column appends its assignment. */
  lemma SetListStep(keys: seq<string>, values: map<string, Variant>, escape: string -> string, i: int, s: string, first: bool)
    requires 0 <= i < |keys| && forall k :: k in keys ==> k in values
    requires SetListUpTo(keys, values, escape, i, s, first)
    ensures keys[i] == "id" ==> SetListUpTo(keys, values, escape, i + 1, s, first)
    ensures keys[i] != "id" ==>
      SetListUpTo(keys, values, escape, i + 1,
        s + (if first then "" else ", ") + keys[i] + " = " + RenderValue(SqlValueOf(values[keys[i]]), escape), false)
  {
    var pre := keys[..i + 1];
    assert pre[..i] == keys[..i] && pre[i] == keys[i];
    assert AssignmentsOf(pre, values) ==
      AssignmentsOf(keys[..i], values) + (if keys[i] == "id" then [] else [Assignment(keys[i], SqlValueOf(values[keys[i]]))]);
    var xs := AssignmentsOf(keys[..i], values);
    if keys[i] != "id" {
      var a := Assignment(keys[i], SqlValueOf(values[keys[i]]));
      SetListAppend(xs, a, escape);
      assert AssignmentsOf(pre, values) == xs + [a];
    } else {
      assert AssignmentsOf(pre, values) == xs;
    }
  }

  /** The SET loop of `Save` over `keys`, skipping `id`; `first` tells
    * whether no assignment was written. */
  method SetListLoop(keys: seq<string>, values: map<string, Variant>, escape: string -> string) returns (s: string, first: bool)
    requires forall k :: k in keys ==> k in values
    ensures s == SetList(AssignmentsOf(keys, values), escape)
    ensures first <==> |AssignmentsOf(keys, values)| == 0
  {
    s := "";
    first := true;
    var i := 0;
    while i < |keys|
      invariant 0 <= i <= |keys|
      invariant SetListUpTo(keys, values, escape, i, s, first)
    {
      SetListStep(keys, values, escape, i, s, first);
      if keys[i] != "id" {
        s := s + (if first then "" else ", ") + keys[i] + " = " + RenderValue(SqlValueOf(values[keys[i]]), escape);
        first := false;
      }
      i := i + 1;
    }
    WholePrefix(keys, i);
  }

  /** The SET list of `Save`, over the record's columns in key order. */
  method BuildSetList(values: map<string, Variant>, escape: string -> string) returns (s: string, first: bool)
    ensures s == SetList(SaveAssignments(values), escape)
    ensures first <==> |SaveAssignments(values)| == 0
  {
    s, first := SetListLoop(SortedKeys(values.Keys), values, escape);
  }

  /** The statement text `Save` executes for a record of `table` holding
    * `values`, with primary id `id`. */
  method SaveSql(table: string, values: map<string, Variant>, id: Variant, escape: string -> string)
      returns (sql: string)
    ensures sql == Render(SaveStatement(table, SaveAssignments(values), id), escape)
  {
    var setList, first := BuildSetList(values, escape);
    sql := SaveText(table, SaveAssignments(values), setList, first, id, escape);
  }

  /** Executes the statement `Save` builds for `values` and `id`. */
  method WriteSave(db: Database, table: string, values: map<string, Variant>, id: Variant)
    modifies db`writes
    ensures db.writes == old(db.writes) +
      (if db.connected then [Render(SaveStatement(table, SaveAssignments(values), id), db.escape)] else [])
  {
    var sql := SaveSql(table, values, id, db.escape);
    db.Execute(sql);
  }

  /** The rest of `Save` once the SET list `assignments` is built. */
  method SaveText(table: string, ghost assignments: seq<Assignment>, setList: string, first: bool, id: Variant,
                  escape: string -> string) returns (sql: string)
    requires setList == SetList(assignments, escape)
    requires first <==> |assignments| == 0
    ensures sql == Render(SaveStatement(table, assignments, id), escape)
  {
    if !id.IsValid() || id.ToInt() == 0 {
      ghost var stamped := assignments + [Assignment("create_timestamp", SqlNull)];
      var tail := InsertTail(assignments, setList, first, escape);
      sql := "INSERT INTO " + table + " SET " + tail;
      assert SaveStatement(table, assignments, id) == Insert(table, stamped);
    } else {
      sql := "UPDATE " + table + " SET " + setList + " WHERE id = " + escape(id.ToString());
      assert SaveStatement(table, assignments, id) == Update(table, assignments, id.ToString());
    }
  }

  /** The SET list of an INSERT: the record's assignments, then
    * `create_timestamp = NULL`. */
  method InsertTail(ghost assignments: seq<Assignment>, setList: string, first: bool, escape: string -> string)
      returns (tail: string)
    requires setList == SetList(assignments, escape)
    requires first <==> |assignments| == 0
    ensures tail == SetList(assignments + [Assignment("create_timestamp", SqlNull)], escape)
  {
    SetListAppend(assignments, Assignment("create_timestamp", SqlNull), escape);
    tail := setList + (if first then "" else ", ") + "create_timestamp" + " = " + RenderValue(SqlNull, escape);
  }

  /** The rows `Load(conds)` reads for a record of `table`. */
  function LoadAnswer(db: Database, table: string, conds: map<string, string>): seq<Row>
    reads db
  {
    db.Answer(LoadText(table, conds, db.escape))
  }

  /** The values `Load` leaves in a record: those of the first row read. */
  function LoadedValues(rows: seq<Row>): map<string, Variant>
  {
    if |rows| == 0 then map[] else RowValues(rows[0])
  }

  /** The rows `Load(key, value)` reads for a record of `table`. */
  function KeyAnswer(db: Database, table: string, key: string, value: string): seq<Row>
    reads db
  {
    db.Answer(KeyText(table, key, value, db.escape))
  }

  /** `Load(key, value)` reads at most one row, so it does not fail. */
  predicate LoadsOne(db: Database, table: string, key: string, value: string)
    reads db
  {
    |KeyAnswer(db, table, key, value)| <= 1
  }

  /** `rec` is in the state a successful `Load(key, value)` leaves it in. */
  predicate LoadedBy(rec: Record, db: Database, key: string, value: string)
    reads rec, db
  {
    var rows := KeyAnswer(db, rec.kind.Name(), key, value);
    rec.values == LoadedValues(rows) && rec.initialized == (|rows| == 1)
  }

  /** What a record loaded by `Load(key, value)` answers `Get` with: the
    * row's values when one row was read, else the defaults `Initialize`
    * gives it on first use. */
  function LoadedPrepared(db: Database, table: string, key: string, value: string): Result<map<string, Variant>>
    reads db
  {
    var rows := KeyAnswer(db, table, key, value);
    if |rows| == 1 then Ok(RowValues(rows[0])) else InitialValues(db.columns, table)
  }

  /** A record in the state a successful `Load(key, value)` leaves it in
    * answers with `LoadedPrepared`. */
  lemma PreparedAfterLoad(rec: Record, db: Database, key: string, value: string)
    requires LoadsOne(db, rec.kind.Name(), key, value) && LoadedBy(rec, db, key, value)
    ensures rec.Prepared(db) == LoadedPrepared(db, rec.kind.Name(), key, value)
  {
  }

  /** The id a `SELECT id` row holds. */
  function IdOf(row: Row): string
  {
    DataValue(row, 0).ToString()
  }

  /** `rec` is a record of type `t` that `Load("id", id)` filled without
    * failing. */
  predicate LoadedRecord(rec: Record, db: Database, t: RecordType, id: string)
    reads rec, db
  {
    rec.kind == t && LoadsOne(db, t.Name(), "id", id) && LoadedBy(rec, db, "id", id)
  }

  /** One iteration of the row loop of `GetAll` and `GetList`: a new record
    * of type `t` loaded by `id`. */
  method NewLoaded(db: Database, t: RecordType, id: string) returns (rec: Record, r: Result<bool>)
    ensures fresh(rec)
    ensures r.Ok? <==> LoadsOne(db, t.Name(), "id", id)
    ensures r.Ok? ==> LoadedRecord(rec, db, t, id)
  {
    rec := new Record(t);
    r := rec.LoadKey(db, "id", id);
  }

  /** Record j of `recs` was loaded by the id of row j. */
  predicate AllLoaded(recs: seq<Record>, db: Database, t: RecordType, rows: seq<Row>)
    reads recs, db
    decreases |recs|
  {
    && |recs| <= |rows|
    && (|recs| > 0 ==>
          && AllLoaded(recs[..|recs| - 1], db, t, rows)
          && LoadedRecord(recs[|recs| - 1], db, t, IdOf(rows[|recs| - 1])))
  }

  lemma AllLoadedAppend(recs: seq<Record>, rec: Record, db: Database, t: RecordType, rows: seq<Row>)
    requires AllLoaded(recs, db, t, rows) && |recs| < |rows|
    requires LoadedRecord(rec, db, t, IdOf(rows[|recs|]))
    ensures AllLoaded(recs + [rec], db, t, rows)
  {
    assert (recs + [rec])[..|recs|] == recs;
  }

  lemma {:induction false} AllLoadedEach(recs: seq<Record>, db: Database, t: RecordType, rows: seq<Row>)
    requires AllLoaded(recs, db, t, rows)
    ensures forall j :: 0 <= j < |recs| ==> LoadedRecord(recs[j], db, t, IdOf(rows[j]))
    decreases |recs|
  {
    if |recs| > 0 {
      var init := recs[..|recs| - 1];
      AllLoadedEach(init, db, t, rows);
      assert forall j :: 0 <= j < |init| ==> recs[j] == init[j];
    }
  }

  /** The row loop of `GetAll` and `GetList`: a new record of type `t` per
    * row, loaded by the row's id. A record whose load fails is not kept,
    * and the loop stops there. */
  method LoadRecords(db: Database, t: RecordType, rows: seq<Row>) returns (recs: seq<Record>, r: Result<()>)
    ensures |recs| <= |rows|
    ensures r.Ok? ==> |recs| == |rows|
    ensures r.Err? ==> |recs| < |rows| && !LoadsOne(db, t.Name(), "id", IdOf(rows[|recs|]))
    ensures AllLoaded(recs, db, t, rows)
    ensures forall j :: 0 <= j < |recs| ==> fresh(recs[j])
  {
    recs := [];
    var k := 0;
    while k < |rows|
      invariant 0 <= k <= |rows| && |recs| == k
      invariant forall j :: 0 <= j < k ==> fresh(recs[j])
      invariant AllLoaded(recs, db, t, rows)
    {
      var rec, loaded := NewLoaded(db, t, IdOf(rows[k]));
      if loaded.Err? {
        return recs, Err(loaded.msg);
      }
      AllLoadedAppend(recs, rec, db, t, rows);
      recs := recs + [rec];
      k := k + 1;
    }
    r := Ok(());
  }

  /** `GetUnmangledClassName(typeid(T).name())` in `GetAll<T>` and
    * `GetList<T>`: the class name of `t`, which never fails. */
  method UnmangledName(t: RecordType) returns (name: string)
    ensures name == t.Name()
  {
    var r := GetUnmangledClassName(t.TypeIdName());
    UnmangleTypeIdName(t);
    name := r.value;
  }

  /** `GetAll<T>`: every record of type `t`, appended to `list`. On failure
    * `list` keeps the records appended before it. */
  method GetAll(db: Database, t: RecordType, list: seq<Record>) returns (list': seq<Record>, r: Result<()>)
    ensures var rows := db.Answer(Render(SelectIds(t.Name()), db.escape));
      && |list| <= |list'| <= |list| + |rows|
      && list'[..|list|] == list
      && (r.Ok? ==> |list'| == |list| + |rows|)
      && (r.Err? ==> |list'| < |list| + |rows| && !LoadsOne(db, t.Name(), "id", IdOf(rows[|list'| - |list|])))
      && AllLoaded(list'[|list|..], db, t, rows)
      && forall j :: |list| <= j < |list'| ==> fresh(list'[j])
  {
    var name := UnmangledName(t);
    var rows := db.Query(Render(SelectIds(name), db.escape));
    var recs;
    recs, r := LoadRecords(db, t, rows);
    list' := list + recs;
    assert list'[..|list|] == list && list'[|list|..] == recs;
  }

  class Record {
    /** The concrete class; its name is the table name. */
    const kind: RecordType
    /** `ColumnValues`. */
    var values: map<string, Variant>
    /** `Initialized`. */
    var initialized: bool

    constructor(kind: RecordType)
      ensures this.kind == kind && values == map[] && !initialized
    {
      this.kind := kind;
      values := map[];
      initialized := false;
    }

    /** `GetName()`. */
    function Name(): string
    {
      kind.Name()
    }

    /** The values the record answers with: its own once initialized, else
      * those `Initialize` would give it. */
    function Prepared(db: Database): Result<map<string, Variant>>
      reads this, db
    {
      if initialized then Ok(values) else InitialValues(db.columns, kind.Name())
    }

    /** The state after an operation that first makes sure the record is
      * initialized, given what `Prepared` was before it. */
    predicate Settled(p: Result<map<string, Variant>>)
      reads this
    {
      (p.Ok? ==> initialized && values == p.value) && (p.Err? ==> !initialized)
    }

    /** Fills the record with every column's default. On failure the record
      * stays uninitialized. */
    method Initialize(db: Database) returns (r: Result<()>)
      modifies this
      ensures r.Ok? <==> InitialValues(db.columns, kind.Name()).Ok?
      ensures r.Ok? ==> initialized && values == InitialValues(db.columns, kind.Name()).value
      ensures r.Err? ==> initialized == old(initialized)
    {
      values := map[];
      var m;
      m, r := CollectDefaults(db.columns, Name());
      values := m;
      if r.Ok? {
        initialized := true;
      }
    }

    /** Whether the record has `column`, after initializing it if needed. */
    method ColumnNameExists(db: Database, column: string) returns (r: Result<bool>)
      modifies this
      ensures Settled(old(Prepared(db)))
      ensures r.Ok? <==> old(Prepared(db)).Ok?
      ensures r.Ok? ==> (r.value <==> column in values)
    {
      if !initialized {
        var init := Initialize(db);
        if init.Err? {
          return Err(init.msg);
        }
      }
      r := Ok(column in values);
    }

    /** The value of `column`; fails for a column the record lacks. */
    method Get(db: Database, column: string) returns (r: Result<Variant>)
      modifies this
      ensures Settled(old(Prepared(db)))
      ensures r.Ok? <==> old(Prepared(db)).Ok? && column in old(Prepared(db)).value
      ensures r.Ok? ==> r.value == values[column]
    {
      var has := ColumnNameExists(db, column);
      if has.Err? {
        return Err(has.msg);
      }
      if !has.value {
        return Err("Tried to get column \"" + Name() + "." + column + "\" which doesn't exist");
      }
      r := Ok(values[column]);
    }

    /** Stores `value` under `column` (through the hash for a `User`'s
      * password); fails for a column the record lacks, leaving it as it
      * was. */
    method SetVariant(db: Database, hash: string -> string, column: string, value: Variant) returns (r: Result<()>)
      modifies this
      ensures var p := old(Prepared(db));
        && (r.Ok? <==> p.Ok? && column in p.value)
        && (r.Ok? ==> initialized && values == p.value[column := StoredValue(kind, hash, column, value)])
        && (r.Err? ==> Settled(p))
    {
      var v := value;
      if kind == User && column == "password" && value.IsValid() {
        v := Str(hash(value.ToString()));
      }
      var has := ColumnNameExists(db, column);
      if has.Err? {
        return Err(has.msg);
      }
      if !has.value {
        return Err("Tried to set column \"" + Name() + "." + column + "\" which doesn't exist");
      }
      values := values[column := v];
      r := Ok(());
    }

    /** `Set`: stores a value of a C++ type, which always makes a valid
      * variant. */
    method Set(db: Database, hash: string -> string, column: string, value: Variant) returns (r: Result<()>)
      requires value.IsValid()
      modifies this
      ensures var p := old(Prepared(db));
        && (r.Ok? <==> p.Ok? && column in p.value)
        && (r.Ok? ==> initialized && values == p.value[column := StoredValue(kind, hash, column, value)])
        && (r.Err? ==> Settled(p))
    {
      r := SetVariant(db, hash, column, value);
    }

    /** `SetNull`: stores NULL, never hashed. */
    method SetNull(db: Database, hash: string -> string, column: string) returns (r: Result<()>)
      modifies this
      ensures var p := old(Prepared(db));
        && (r.Ok? <==> p.Ok? && column in p.value)
        && (r.Ok? ==> initialized && values == p.value[column := Null])
        && (r.Err? ==> Settled(p))
    {
      r := SetVariant(db, hash, column, Null);
    }

    /** Fails unless the record has a primary id. */
    method AssertPrimaryId(db: Database) returns (r: Result<()>)
      modifies this
      ensures Settled(old(Prepared(db)))
      ensures var p := old(Prepared(db));
        r.Ok? <==> p.Ok? && "id" in p.value && IsPrimaryId(p.value["id"])
    {
      var id := Get(db, "id");
      if id.Err? {
        return Err(id.msg);
      }
      if !id.value.IsValid() || id.value.ToInt() == 0 {
        return Err("Assert failed: primary id for record is not set");
      }
      r := Ok(());
    }

    /** `Load(map)`: replaces the record's values by those of the one row
      * whose columns equal the map's values. No row leaves the record empty
      * and uninitialized; a second row is an error, after the first row's
      * values have been copied. */
    method Load(db: Database, conds: map<string, string>) returns (r: Result<bool>)
      modifies this
      ensures var rows := LoadAnswer(db, kind.Name(), conds);
        && (r.Ok? <==> |rows| <= 1)
        && (r.Ok? ==> r.value == (|rows| == 1) && initialized == r.value)
        && (r.Err? ==> initialized == old(initialized))
        && values == LoadedValues(rows)
    {
      values := map[];
      var sql := SelectText(Name(), conds, db.escape);
      var rows := db.Query(sql);
      var first := true;
      var k := 0;
      while k < |rows|
        invariant 0 <= k <= 1 && k <= |rows|
        invariant first <==> k == 0
        invariant values == if k == 0 then map[] else RowValues(rows[0])
        invariant initialized == old(initialized)
      {
        if !first {
          return Err("Loading " + Name() + " record resulted in multiple rows");
        }
        // the map is still empty here, so inserting the row's fields into
        // it gives the row's values
        values := ReadRow(rows[k]);
        first := false;
        k := k + 1;
      }
      initialized := !first;
      r := Ok(!first);
    }

    /** `Load(key, value)` and `Load(pair)`: `Load` on the one-entry map,
      * which selects on that column alone. */
    method LoadKey(db: Database, key: string, value: string) returns (r: Result<bool>)
      modifies this
      ensures var rows := KeyAnswer(db, kind.Name(), key, value);
        && (r.Ok? <==> |rows| <= 1)
        && (r.Ok? ==> r.value == (|rows| == 1) && initialized == r.value)
        && (r.Err? ==> initialized == old(initialized))
        && values == LoadedValues(rows)
    {
      KeyTextIsLoadText(kind.Name(), key, value, db.escape);
      r := Load(db, map[key := value]);
    }

    /** `Save`: writes the record's values, every column but `id`, with an
      * UPDATE of its row when it has a primary id and an INSERT otherwise.
      * The SET list is built from the values held before `Get("id")`, which
      * may initialize the record; a failing `Get` writes nothing. */
    method Save(db: Database) returns (r: Result<()>)
      modifies this, db`writes
      ensures Settled(old(Prepared(db)))
      ensures r.Ok? <==> old(Prepared(db)).Ok? && "id" in old(Prepared(db)).value
      ensures r.Ok? ==>
        db.writes == old(db.writes) +
          (if db.connected then [Render(SaveStatement(kind.Name(), SaveAssignments(old(values)), values["id"]), db.escape)] else [])
      ensures r.Err? ==> db.writes == old(db.writes)
    {
      var before := values;
      var id := Get(db, "id");
      if id.Err? {
        return Err(id.msg);
      }
      WriteSave(db, Name(), before, id.value);
      r := Ok(());
    }

    /** `Remove`: deletes the record's row; fails, writing nothing, unless
      * the record has a primary id. */
    method Remove(db: Database) returns (r: Result<()>)
      modifies this, db`writes
      ensures Settled(old(Prepared(db)))
      ensures var p := old(Prepared(db));
        r.Ok? <==> p.Ok? && "id" in p.value && IsPrimaryId(p.value["id"])
      ensures r.Ok? ==>
        db.writes == old(db.writes) +
          (if db.connected then [Render(Delete(kind.Name(), values["id"].ToString()), db.escape)] else [])
      ensures r.Err? ==> db.writes == old(db.writes)
    {
      var check := AssertPrimaryId(db);
      if check.Err? {
        return Err(check.msg);
      }
      var id := Get(db, "id");
      db.Execute(Render(Delete(Name(), id.value.ToString()), db.escape));
      r := Ok(());
    }

    /** `GetCount`: the number of records of `recordType` whose foreign key
      * names this record, as the first field of the first row reads; no row
      * reads as 0. The id is not checked to be a primary id. */
    method GetCount(db: Database, recordType: string) returns (r: Result<int>)
      modifies this
      ensures Settled(old(Prepared(db)))
      ensures r.Ok? <==> old(Prepared(db)).Ok? && "id" in old(Prepared(db)).value
      ensures r.Ok? ==>
        var rows := db.Answer(Render(CountRelated(recordType, kind.Name(), values["id"].ToString()), db.escape));
        r.value == if |rows| == 0 then 0 else DataValue(rows[0], 0).ToInt()
    {
      var id := Get(db, "id");
      if id.Err? {
        return Err(id.msg);
      }
      var rows := db.Query(Render(CountRelated(recordType, Name(), id.value.ToString()), db.escape));
      var count := Null;
      if |rows| > 0 {
        count := DataValue(rows[0], 0);
      }
      r := Ok(count.ToInt());
    }

    /** `GetRecord`: the record of `table` this record's foreign key
      * `column` (by default the table's name in lower case followed by
      * `_id`) points to, or null when the key is NULL. Fails for a missing
      * column, an unregistered table and a load that fails. */
    method GetRecord(db: Database, table: string, column: string) returns (r: Result<Record?>)
      modifies this
      ensures Settled(old(Prepared(db)))
      ensures var col := if column == "" then Lower(table) + "_id" else column;
        var p := old(Prepared(db));
        && (!(p.Ok? && col in p.value) ==> r.Err?)
        && (p.Ok? && col in p.value && !p.value[col].IsValid() ==> r == Ok(null))
        && (p.Ok? && col in p.value && p.value[col].IsValid() ==>
              (r.Ok? <==> Create(table).Ok? && LoadsOne(db, table, "id", p.value[col].ToString()))
              && (r.Ok? ==> r.value != null && fresh(r.value) && r.value.kind.Name() == table
                            && LoadedBy(r.value, db, "id", p.value[col].ToString())))
    {
      var col := column;
      if col == "" {
        col := Lower(table) + "_id";
      }
      var has := ColumnNameExists(db, col);
      if has.Err? {
        return Err(has.msg);
      }
      if !has.value {
        return Err("Tried to get \"" + table + "\" record but column \"" + col + "\" doesn't exist");
      }
      var v := Get(db, col);
      if !v.value.IsValid() {
        return Ok(null);
      }
      var t := Create(table);
      if t.Err? {
        return Err(t.msg);
      }
      var rec := new Record(t.value);
      var loaded := rec.LoadKey(db, "id", v.value.ToString());
      if loaded.Err? {
        return Err(loaded.msg);
      }
      r := Ok(rec);
    }

    /** `GetList<T>`: every record of type `t` whose foreign key names this
      * record, appended to `list`. Fails, appending nothing, when the record
      * has no `id` column; a failing load keeps the records appended before
      * it. */
    method GetList(db: Database, t: RecordType, list: seq<Record>) returns (list': seq<Record>, r: Result<()>)
      modifies this
      ensures Settled(old(Prepared(db)))
      ensures var p := old(Prepared(db));
        !(p.Ok? && "id" in p.value) ==> r.Err? && list' == list
      ensures var p := old(Prepared(db));
        p.Ok? && "id" in p.value ==>
          var rows := db.Answer(Render(SelectRelatedIds(t.Name(), kind.Name(), p.value["id"].ToString()), db.escape));
          && |list| <= |list'| <= |list| + |rows|
          && list'[..|list|] == list
          && (r.Ok? ==> |list'| == |list| + |rows|)
          && (r.Err? ==> |list'| < |list| + |rows| && !LoadsOne(db, t.Name(), "id", IdOf(rows[|list'| - |list|])))
          && AllLoaded(list'[|list|..], db, t, rows)
          && forall j :: |list| <= j < |list'| ==> fresh(list'[j])
    {
      var name := UnmangledName(t);
      var id := Get(db, "id");
      if id.Err? {
        return list, Err(id.msg);
      }
      var rows := db.Query(Render(SelectRelatedIds(name, Name(), id.value.ToString()), db.escape));
      var recs;
      recs, r := LoadRecords(db, t, rows);
      list' := list + recs;
      assert list'[..|list|] == list && list'[|list|..] == recs;
    }
  }
}
