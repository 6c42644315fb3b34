/** Reading the replica back into a configuration tree (ops/_read.py and read in ops/dc.py). */
module ConfigRead {
  import opened Options
  import opened Database
  import opened Deletion
  import opened ConfigTree

  // ---------- what reading means ----------

  ghost predicate RightTable(s: Schema, db: Db, u: Uuid, c: Name, v: Uuid)
    requires u in db && v in db
  {
    && db[u].table in s.tables
    && c in s.tables[db[u].table].references
    && db[v].table == s.tables[db[u].table].references[c].refTable
  }

  /** References may dangle; where they lead to a row, it is one of the right table. */
  ghost predicate Readable(s: Schema, db: Db) {
    && (forall u {:trigger ValidRow(s, db[u])} :: u in db ==> ValidRow(s, db[u]))
    && (forall u, c, v {:trigger RightTable(s, db, u, c, v)} ::
          u in db && v in db && c in db[u].refs && v in Targets(db[u].refs[c]) ==> RightTable(s, db, u, c, v))
  }

  /** The index string under which a row is listed. */
  function IndexAt(s: Schema, db: Db, v: Uuid): string {
    if Indexed(s, db, v) then RowIndex(s, db, v) else ""
  }

  function ReadConfig(ts: TableSchema, config: map<Name, Value>): map<Name, Value> {
    map c | c in config && c in ts.config && !IsEmpty(config[c]) :: config[c]
  }

  ghost function ReadRef(s: Schema, db: Db, shape: Shape, v: RefValue): RefData {
    match v
    case Map(entries) => IndexMap(map k | k in entries :: IndexAt(s, db, entries[k]))
    case Rows(rows) =>
      if shape == One && rows != {} then (var v :| v in rows; Index(IndexAt(s, db, v)))
      else IndexSet(set v | v in rows :: IndexAt(s, db, v))
  }

  ghost function ReadRefs(s: Schema, db: Db, ts: TableSchema, refs: map<Name, RefValue>): map<Name, RefData> {
    map c | c in refs && IsConfigReference(ts, c) && Targets(refs[c]) != {} :: ReadRef(s, db, ts.references[c].shape, refs[c])
  }

  ghost function IndexesOf(data: map<Uuid, (string, Data)>): set<string> {
    set v | v in data :: data[v].0
  }

  ghost function DataOf(data: map<Uuid, (string, Data)>, i: string): Data
    requires i in IndexesOf(data)
  {
    var v :| v in data && data[v].0 == i;
    data[v].1
  }

  /** Data of rows, listed by index string. */
  ghost function ByIndex(data: map<Uuid, (string, Data)>): map<string, Data> {
    map i | i in IndexesOf(data) :: DataOf(data, i)
  }

  /** Rows that reading goes into. */
  ghost predicate Entered(s: Schema, db: Db, t: Name, u: Uuid) {
    u in db && db[u].table == t && t in s.tables && !Hidden(db[u]) && HasConfigCategory(s.tables[t])
  }

  ghost function ReadRow(s: Schema, db: Db, t: Name, u: Uuid): Option<Data>
    requires ValidSchema(s)
    decreases Level(s, t), 3
  {
    if !Entered(s, db, t, u) then None
    else
      var ts, row := s.tables[t], db[u];
      var d := Data(ReadConfig(ts, row.config), ReadRefs(s, db, ts, row.refs), ReadColumns(s, db, t, row.refs));
      if d == EMPTY_DATA then None else Some(d)
  }

  /** The child columns that have something to show. */
  ghost function ReadColumns(s: Schema, db: Db, t: Name, refs: map<Name, RefValue>): map<Name, Children>
    requires ValidSchema(s) && t in s.tables
    decreases Level(s, t), 2
  {
    map c | c in refs && IsChildColumn(s.tables[t], c) && ReadChildren(s, db, t, c, refs[c]) != map[] ::
      Children(ReadChildren(s, db, t, c, refs[c]))
  }

  /** The readable rows of a child column, by index or key. */
  ghost function ReadChildren(s: Schema, db: Db, t: Name, c: Name, column: RefValue): map<string, Data>
    requires ValidSchema(s) && t in s.tables && IsChildColumn(s.tables[t], c)
    decreases Level(s, t), 1
  {
    assert ValidColumn(s, t, c);
    var ct := s.tables[t].references[c].refTable;
    match column
    case Rows(rows) =>
      ByIndex(map v | v in rows && ReadRow(s, db, ct, v).Some? :: (IndexAt(s, db, v), ReadRow(s, db, ct, v).value))
    case Map(entries) =>
      map k | k in entries && ReadRow(s, db, ct, entries[k]).Some? :: ReadRow(s, db, ct, entries[k]).value
  }

  /** The rows of a top-level table. */
  ghost function RowsIn(db: Db, t: Name): set<Uuid> {
    set u | u in db && db[u].table == t
  }

  ghost function ReadTable(s: Schema, db: Db, t: Name): map<string, Data>
    requires ValidSchema(s)
  {
    ByIndex(map u | u in RowsIn(db, t) && ReadRow(s, db, t, u).Some? :: (IndexAt(s, db, u), ReadRow(s, db, t, u).value))
  }

  /** All top-level tables with something to show, the System row under the key "". */
  ghost function ReadRoot(s: Schema, db: Db): Root
    requires ValidSchema(s)
  {
    map t | t in s.tables && IsTopLevel(s, t) && ReadTable(s, db, t) != map[] :: Children(ReadTable(s, db, t))
  }

  /** The whole configuration; there is none when the System row reads as nothing. */
  ghost function ReadAll(s: Schema, db: Db): Option<Config>
    requires ValidSchema(s)
  {
    var root := ReadRoot(s, db);
    if SYSTEM_TABLE in root && "" in root[SYSTEM_TABLE].entries
    then Some(Config(root[SYSTEM_TABLE].entries[""], root - {SYSTEM_TABLE})) else None
  }

  function RootOf(config: Config): Root {
    config.tables[SYSTEM_TABLE := Children(map["" := config.system])]
  }

  // ---------- reading lists of rows ----------

  lemma ByIndexIs(data: map<Uuid, (string, Data)>, entries: map<string, Data>, place: map<string, Uuid>)
    requires place.Keys == entries.Keys
    requires forall k :: k in entries ==> place[k] in data && data[place[k]] == (k, entries[k])
    requires forall v :: v in data ==> v in place.Values
    ensures ByIndex(data) == entries
  {
    forall i | i in ByIndex(data)
      ensures i in entries && ByIndex(data)[i] == entries[i]
    {
      var v :| v in data && data[v].0 == i && ByIndex(data)[i] == data[v].1;
      var k :| k in place && place[k] == v;
    }
    forall k | k in entries
      ensures k in ByIndex(data)
    {
      assert data[place[k]].0 == k;
    }
  }

  /** `place` leads from every entry to the row that reads as it, and no other of `rows` reads as anything. */
  ghost predicate Lists(s: Schema, db: Db, t: Name, rows: set<Uuid>, entries: map<string, Data>, place: map<string, Uuid>)
    requires ValidSchema(s)
  {
    && place.Keys == entries.Keys
    && (forall k :: k in entries ==> place[k] in rows && IndexAt(s, db, place[k]) == k && ReadRow(s, db, t, place[k]) == Some(entries[k]))
    && (forall v :: v in rows && ReadRow(s, db, t, v).Some? ==> v in place.Values)
  }

  lemma ReadListIs(s: Schema, db: Db, t: Name, c: Name, rows: set<Uuid>, entries: map<string, Data>, place: map<string, Uuid>)
    requires ValidSchema(s) && t in s.tables && IsChildColumn(s.tables[t], c)
    requires Lists(s, db, s.tables[t].references[c].refTable, rows, entries, place)
    ensures ReadChildren(s, db, t, c, Rows(rows)) == entries
  {
    var ct := s.tables[t].references[c].refTable;
    ByIndexIs(map v | v in rows && ReadRow(s, db, ct, v).Some? :: (IndexAt(s, db, v), ReadRow(s, db, ct, v).value), entries, place);
  }

  lemma ReadTableIs(s: Schema, db: Db, t: Name, entries: map<string, Data>, place: map<string, Uuid>)
    requires ValidSchema(s) && Lists(s, db, t, RowsIn(db, t), entries, place)
    ensures ReadTable(s, db, t) == entries
  {
    ByIndexIs(map v | v in RowsIn(db, t) && ReadRow(s, db, t, v).Some? :: (IndexAt(s, db, v), ReadRow(s, db, t, v).value), entries, place);
  }

  lemma ReadKeyedIs(s: Schema, db: Db, t: Name, c: Name, rows: map<string, Uuid>, entries: map<string, Data>)
    requires ValidSchema(s) && t in s.tables && IsChildColumn(s.tables[t], c)
    requires entries.Keys <= rows.Keys
    requires forall k :: k in entries ==> ReadRow(s, db, s.tables[t].references[c].refTable, rows[k]) == Some(entries[k])
    requires forall k :: k in rows && k !in entries ==> ReadRow(s, db, s.tables[t].references[c].refTable, rows[k]) == None
    ensures ReadChildren(s, db, t, c, Map(rows)) == entries
  {
  }
}
