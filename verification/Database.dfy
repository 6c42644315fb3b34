/** Either nothing or one value. */
module Options {
  datatype Option<+T> = None | Some(value: T)
}

/** The in-memory replica of the OVSDB database, the extended schema that categorises its columns,
    and the tree that a full declarative configuration is made of. */
module Database {
  import opened Options
  import Escape

  type Name = string
  type Uuid = nat

  const SYSTEM_TABLE: Name := "System"
  const VLAN_TABLE: Name := "VLAN"
  const DEFAULT_TABLES: set<Name> := {"Bridge", "VRF"}

  // ---------- column values ----------

  /** Scalar stands for integers, reals and booleans by the text that str() gives them. */
  datatype Value =
    | NoneValue
    | Text(text: string)
    | Scalar(repr: string)
    | Items(items: seq<string>)
    | Entries(entries: map<string, string>)

  predicate IsEmpty(v: Value) {
    v == NoneValue || v == Text("") || v == Items([]) || v == Entries(map[])
  }

  /** The empty value of the same basic type. */
  function EmptyLike(v: Value): Value {
    match v
    case Text(_) => Text("")
    case Items(_) => Items([])
    case Entries(_) => Entries(map[])
    case _ => NoneValue
  }

  predicate IsAtom(v: Value) {
    v.Text? || v.Scalar?
  }

  function Str(v: Value): string
    requires IsAtom(v)
  {
    match v
    case Text(t) => t
    case Scalar(r) => r
  }

  // ---------- schema ----------

  datatype Shape = One | Many | Keyed
  datatype Relation = Child | Reference

  datatype ConfigColumn = ConfigColumn(mutable: bool, initial: Value)

  datatype RefColumn = RefColumn(refTable: Name, shape: Shape, relation: Relation, isConfig: bool, mutable: bool)

  /** `indexes` is empty for a table that is indexed by UUID only. */
  datatype TableSchema = TableSchema(
    config: map<Name, ConfigColumn>,
    references: map<Name, RefColumn>,
    indexes: seq<Name>,
    parent: Option<Name>,
    mutable: bool)

  /** `level` witnesses that containment between tables is acyclic. */
  datatype Schema = Schema(tables: map<Name, TableSchema>, level: map<Name, nat>)

  predicate IsChildColumn(ts: TableSchema, c: Name) {
    c in ts.references && ts.references[c].relation == Child
  }

  predicate IsTopLevel(s: Schema, t: Name) {
    t in s.tables && s.tables[t].parent.None?
  }

  predicate IsConfigReference(ts: TableSchema, c: Name) {
    c in ts.references && ts.references[c].relation == Reference && ts.references[c].isConfig
  }

  predicate HasConfigCategory(ts: TableSchema) {
    ts.config.Keys != {} || exists c :: c in ts.references && ts.references[c].isConfig
  }

  /** Rows of such a table may be deleted. */
  predicate DeleteCheck(s: Schema, t: Name)
    requires t in s.tables
  {
    s.tables[t].mutable && t !in DEFAULT_TABLES
  }

  /** Rows may be inserted into such a table. */
  predicate InsertCheck(s: Schema, t: Name)
    requires t in s.tables
  {
    DeleteCheck(s, t) || s.tables[t].indexes == []
  }

  /** Containment goes down one level, from a table to one that has a parent.  List columns contain
      rows of indexed tables, key/value columns rows of tables without an index, and references
      point at indexed tables. */
  ghost predicate ValidColumn(s: Schema, t: Name, c: Name)
    requires t in s.tables && c in s.tables[t].references
  {
    var column := s.tables[t].references[c];
    && c !in s.tables[t].config
    && column.refTable in s.tables
    && t in s.level && column.refTable in s.level
    && var target := s.tables[column.refTable];
    && (column.relation == Child ==>
          && s.level[column.refTable] < s.level[t]
          && target.parent.Some?
          && column.shape != One
          && (column.shape == Many <==> target.indexes != []))
    && (column.relation == Reference ==> target.indexes != [])
  }

  /** Index columns are configuration columns; of the top-level tables only System has no index. */
  ghost predicate ValidTable(s: Schema, t: Name)
    requires t in s.tables
  {
    var ts := s.tables[t];
    && t in s.level
    && (forall i {:trigger ts.indexes[i]} :: 0 <= i < |ts.indexes| ==> ts.indexes[i] in ts.config)
    && (ts.parent.None? ==> (ts.indexes == [] <==> t == SYSTEM_TABLE))
    && (t == SYSTEM_TABLE ==> ts.parent.None?)
  }

  ghost predicate ValidSchema(s: Schema) {
    && SYSTEM_TABLE in s.tables
    && (forall t {:trigger ValidTable(s, t)} :: t in s.tables ==> ValidTable(s, t))
    && (forall t, c {:trigger ValidColumn(s, t, c)} ::
          t in s.tables && c in s.tables[t].references ==> ValidColumn(s, t, c))
  }

  // ---------- rows ----------

  /** OVSDB reference columns hold sets or maps of rows (section 5.1 of RFC 7047). */
  datatype RefValue = Rows(rows: set<Uuid>) | Map(entries: map<string, Uuid>)

  function Targets(v: RefValue): set<Uuid> {
    match v
    case Rows(rows) => rows
    case Map(entries) => entries.Values
  }

  /** `internal` is the internal_usage mark that only VLAN rows carry. */
  datatype Row = Row(table: Name, config: map<Name, Value>, refs: map<Name, RefValue>, internal: bool)

  type Db = map<Uuid, Row>

  predicate Hidden(row: Row) {
    row.table == VLAN_TABLE && row.internal
  }

  predicate Indexable(ts: TableSchema, config: map<Name, Value>) {
    forall i :: 0 <= i < |ts.indexes| ==> ts.indexes[i] in config && IsAtom(config[ts.indexes[i]])
  }

  function KeyOf(ts: TableSchema, config: map<Name, Value>): (key: seq<string>)
    requires Indexable(ts, config)
  {
    seq(|ts.indexes|, i requires 0 <= i < |ts.indexes| => Str(config[ts.indexes[i]]))
  }

  /** Index values that survive the trip through an index string. */
  ghost predicate CleanKey(key: seq<string>) {
    forall i :: 0 <= i < |key| ==> key[i] != "" && Escape.IsBytes(key[i])
  }

  function IndexOf(ts: TableSchema, config: map<Name, Value>): string
    requires Indexable(ts, config)
  {
    Escape.IndexString(KeyOf(ts, config))
  }

  lemma IndexOfSplits(ts: TableSchema, config: map<Name, Value>)
    requires Indexable(ts, config) && CleanKey(KeyOf(ts, config))
    ensures Escape.UnquoteSplit(IndexOf(ts, config)) == KeyOf(ts, config)
  {
    Escape.IndexStringSplits(KeyOf(ts, config));
  }

  ghost predicate ValidRow(s: Schema, row: Row) {
    && row.table in s.tables
    && var ts := s.tables[row.table];
    && row.config.Keys == ts.config.Keys
    && row.refs.Keys == ts.references.Keys
    && Indexable(ts, row.config)
    && (forall c {:trigger row.refs[c]} :: c in row.refs ==> (row.refs[c].Map? <==> ts.references[c].shape == Keyed))
    && (forall c {:trigger row.refs[c]} :: c in row.refs && ts.references[c].shape == One ==>
          |Targets(row.refs[c])| <= 1)
  }

  /** A reference leads to a row of the right table. */
  ghost predicate ValidTarget(s: Schema, db: Db, u: Uuid, c: Name, v: Uuid)
    requires u in db
  {
    && v in db
    && db[u].table in s.tables
    && c in s.tables[db[u].table].references
    && db[v].table == s.tables[db[u].table].references[c].refTable
  }

  ghost predicate ValidDb(s: Schema, db: Db) {
    && (forall u {:trigger ValidRow(s, db[u])} :: u in db ==> ValidRow(s, db[u]))
    && (forall u, c, v {:trigger ValidTarget(s, db, u, c, v)} ::
          u in db && c in db[u].refs && v in Targets(db[u].refs[c]) ==> ValidTarget(s, db, u, c, v))
  }

  predicate IsChildOf(s: Schema, db: Db, u: Uuid, c: Name, v: Uuid) {
    && u in db
    && db[u].table in s.tables
    && IsChildColumn(s.tables[db[u].table], c)
    && c in db[u].refs
    && v in Targets(db[u].refs[c])
  }

  /** Each row is contained in at most one place. */
  ghost predicate Forest(s: Schema, db: Db) {
    && (forall u1, c1, u2, c2, v {:trigger IsChildOf(s, db, u1, c1, v), IsChildOf(s, db, u2, c2, v)} ::
          IsChildOf(s, db, u1, c1, v) && IsChildOf(s, db, u2, c2, v) ==> u1 == u2 && c1 == c2)
    && (forall u, c, k1, k2 {:trigger HasKey(s, db, u, c, k1), HasKey(s, db, u, c, k2)} ::
          && HasKey(s, db, u, c, k1)
          && HasKey(s, db, u, c, k2)
          && db[u].refs[c].entries[k1] == db[u].refs[c].entries[k2]
          ==> k1 == k2)
  }

  predicate HasKey(s: Schema, db: Db, u: Uuid, c: Name, k: string) {
    && u in db
    && db[u].table in s.tables
    && IsChildColumn(s.tables[db[u].table], c)
    && c in db[u].refs
    && db[u].refs[c].Map?
    && k in db[u].refs[c].entries
  }

  // ---------- the configuration tree ----------

  /** Index strings of referenced rows; a list of them is a set, as the column that stores it is. */
  datatype RefData = Index(index: string) | IndexSet(indexes: set<string>) | IndexMap(entries: map<string, string>)

  datatype Data = Data(config: map<Name, Value>, refs: map<Name, RefData>, children: map<Name, Children>)
  datatype Children = Children(entries: map<string, Data>)

  const EMPTY_DATA: Data := Data(map[], map[], map[])

  datatype Config = Config(system: Data, tables: map<Name, Children>)
}
