/** The second phase of a write: filling in the reference columns, once every row is there
    (ops/_write.py, setup_row_references). */
module ConfigRefs {
  import opened Options
  import opened Database
  import opened ConfigTree
  import opened ConfigTarget
  import opened ConfigStages
  import opened ConfigTables
  import Escape

  type RefList = map<(Name, string), Uuid>

  /** The row with this index: a committed one, or one inserted during the write. */
  function FindRow(j: Job, refList: RefList, t: Name, index: string): Option<Uuid> {
    if t !in j.schema.tables || |Escape.UnquoteSplit(index)| != |j.schema.tables[t].indexes| then None
    else if Lookup(j, t, index).Some? then Lookup(j, t, index)
    else if (t, index) in refList then Some(refList[(t, index)])
    else None
  }

  /** A committed row with these index values comes first, then one inserted by this or an earlier write. */
  lemma FindsExactly(j: Job, refList: RefList, t: Name, index: string)
    requires WellPosed(j)
    ensures forall u :: Indexed(j.schema, j.base, u) && j.base[u].table == t && RowKey(j.schema, j.base, u) == Escape.UnquoteSplit(index) ==>
              FindRow(j, refList, t, index) == Some(u)
    ensures (forall u :: Indexed(j.schema, j.base, u) && j.base[u].table == t ==> RowKey(j.schema, j.base, u) != Escape.UnquoteSplit(index)) ==>
              FindRow(j, refList, t, index) ==
              if t in j.schema.tables && |Escape.UnquoteSplit(index)| == |j.schema.tables[t].indexes| && (t, index) in refList
              then Some(refList[(t, index)]) else None
  {
    var e := (t, Escape.UnquoteSplit(index));
    if e in j.indexMap {
      assert EntryExact(j, e);
    }
    forall u | Indexed(j.schema, j.base, u) && j.base[u].table == t && RowKey(j.schema, j.base, u) == e.1
      ensures e in j.indexMap && j.indexMap[e] == u
    {
      assert RowListed(j, u);
    }
  }

  /** The reference columns that a write sets. */
  predicate IsWritten(ts: TableSchema, c: Name) {
    IsConfigReference(ts, c) && ts.references[c].mutable
  }

  function IndexesIn(d: RefData): set<string> {
    match d
    case Index(i) => {i}
    case IndexSet(indexes) => indexes
    case IndexMap(entries) => entries.Values
  }

  predicate Resolves(j: Job, refList: RefList, t: Name, d: RefData) {
    forall i :: i in IndexesIn(d) ==> FindRow(j, refList, t, i).Some?
  }

  function Found(j: Job, refList: RefList, t: Name, index: string): Uuid {
    if FindRow(j, refList, t, index).Some? then FindRow(j, refList, t, index).value else 0
  }

  /** The rows that reference data stands for. */
  function RefTarget(j: Job, refList: RefList, t: Name, d: RefData): RefValue {
    match d
    case Index(i) => Rows({Found(j, refList, t, i)})
    case IndexSet(indexes) => Rows(set i | i in indexes :: Found(j, refList, t, i))
    case IndexMap(entries) => Map(map k | k in entries :: Found(j, refList, t, entries[k]))
  }

  function ColumnTarget(j: Job, refList: RefList, p: Path, c: Name): RefValue {
    var t := TableAt(j.schema, p);
    if t in j.schema.tables && c in j.schema.tables[t].references then
      var column := j.schema.tables[t].references[c];
      if c in DataAt(j, p).refs then RefTarget(j, refList, column.refTable, DataAt(j, p).refs[c])
      else NoRows(column.shape)
    else Rows({})
  }

  function WrittenColumns(j: Job, p: Path): set<Name> {
    var t := TableAt(j.schema, p);
    if t in j.schema.tables then set c | c in j.schema.tables[t].references && IsWritten(j.schema.tables[t], c) else {}
  }

  /** All reference data at a location can be resolved. */
  predicate RowResolves(j: Job, refList: RefList, p: Path) {
    var t := TableAt(j.schema, p);
    t in j.schema.tables ==>
      forall c :: c in WrittenColumns(j, p) && c in DataAt(j, p).refs ==>
        Resolves(j, refList, j.schema.tables[t].references[c].refTable, DataAt(j, p).refs[c])
  }

  /** The row at a location with the reference columns `done` filled in. */
  ghost function WithRefs(j: Job, refList: RefList, p: Path, row: Row, done: set<Name>): Row {
    row.(refs := map c | c in row.refs :: if c in done then ColumnTarget(j, refList, p, c) else row.refs[c])
  }

  /** The row at a location once a write is through with it. */
  ghost function FinalRow(j: Job, refList: RefList, created: map<Path, Uuid>, p: Path): Row {
    WithRefs(j, refList, p, BuiltRow(j, created, p), WrittenColumns(j, p))
  }

  /** Every location has its row. */
  ghost predicate AllMade(j: Job) {
    forall p {:trigger Live(j, p)} :: NodeAt(j.root, p).Some? ==> Live(j, p)
  }

  /** What the first phase leaves for the second to find. */
  ghost predicate Findable(j: Job, rows: Db, refList: RefList, labels: map<Path, Uuid>, created: map<Path, Uuid>, p: Path) {
    && Placed(j, created, p)
    && Place(j, created, p) in rows
    && (IsKeyed(j.schema, p) ==> p in labels && labels[p] == Place(j, created, p))
    && (!IsKeyed(j.schema, p) && p != [Step(SYSTEM_TABLE, "")] ==>
          p != [] && FindRow(j, refList, TableAt(j.schema, p), Last(p).key) == Some(Place(j, created, p)))
  }

  lemma FindsPlaced(j: Job, st: State, p: Path)
    requires WellPosed(j) && Inv(j, st) && Placed(j, st.created, p) && (IsKeyed(j.schema, p) ==> p in st.labels)
    ensures Findable(j, st.rows, st.refList, st.labels, st.created, p)
  {
    PlacedRow(j, st, p);
    assert Fits(j, p);
    if IsKeyed(j.schema, p) {
      assert Labelled(j, st.created, st.labels, p);
    } else {
      var t := TableAt(j.schema, p);
      if |p| == 1 {
        TopTable(j, p);
      } else {
        KeyedTable(j, p);
      }
      if p != [Step(SYSTEM_TABLE, "")] {
        IndexOfSplits(j.schema.tables[t], NodeAt(j.root, p).value.config);
        if Exist(j, p).None? {
          assert CreatedRow(j, st.rows, st.refList, st.created, p);
        }
      }
    }
  }

  // ---------- stages of the second phase ----------

  /** A row that no location stands for. */
  ghost predicate Foreign(j: Job, created: map<Path, Uuid>, v: Uuid) {
    forall q {:trigger Place(j, created, q)} :: Placed(j, created, q) ==> Place(j, created, q) != v
  }

  ghost predicate FinalAt(j: Job, refList: RefList, created: map<Path, Uuid>, rows: Db, q: Path) {
    && Place(j, created, q) in rows
    && rows[Place(j, created, q)] == FinalRow(j, refList, created, q)
  }

  /** From `rows` to `after` the references at the locations in `region` have been filled in. */
  ghost predicate RefStage(j: Job, refList: RefList, created: map<Path, Uuid>, rows: Db, after: Db, region: iset<Path>) {
    && after.Keys == rows.Keys
    && (forall q {:trigger FinalAt(j, refList, created, after, q)} :: q in region ==> FinalAt(j, refList, created, after, q))
    && (forall q {:trigger SameAt(j, created, rows, after, q)} ::
          q !in region && Placed(j, created, q) ==> SameAt(j, created, rows, after, q))
    && (forall v {:trigger Foreign(j, created, v)} :: v in rows && Foreign(j, created, v) ==> after[v] == rows[v])
  }

  ghost predicate RegionResolves(j: Job, refList: RefList, region: iset<Path>) {
    forall q {:trigger RowResolves(j, refList, q)} :: q in region ==> RowResolves(j, refList, q)
  }

  /** What the second phase starts from at the locations in `region`. */
  ghost predicate RefsPending(j: Job, refList: RefList, labels: map<Path, Uuid>, created: map<Path, Uuid>, rows: Db, region: iset<Path>) {
    forall q {:trigger BuiltAt(j, rows, created, q)} {:trigger Findable(j, rows, refList, labels, created, q)} ::
      q in region ==> BuiltAt(j, rows, created, q) && Findable(j, rows, refList, labels, created, q)
  }

  lemma RefsCompose(j: Job, refList: RefList, created: map<Path, Uuid>, a: Db, b: Db, c: Db, r1: iset<Path>, r2: iset<Path>)
    requires RefStage(j, refList, created, a, b, r1) && RefStage(j, refList, created, b, c, r2) && r1 !! r2
    requires forall q {:trigger q in r1} :: q in r1 ==> Placed(j, created, q)
    ensures RefStage(j, refList, created, a, c, r1 + r2)
  {
    forall q | q in r1
      ensures FinalAt(j, refList, created, c, q)
    {
      assert FinalAt(j, refList, created, b, q);
      assert SameAt(j, created, b, c, q);
    }
    forall q | q !in r1 + r2 && Placed(j, created, q)
      ensures SameAt(j, created, a, c, q)
    {
      assert SameAt(j, created, a, b, q);
      assert SameAt(j, created, b, c, q);
    }
    forall v | v in a && Foreign(j, created, v)
      ensures c[v] == a[v]
    {
    }
  }

  lemma StillPending(j: Job, refList: RefList, labels: map<Path, Uuid>, created: map<Path, Uuid>, a: Db, b: Db,
                     r1: iset<Path>, r2: iset<Path>)
    requires RefStage(j, refList, created, a, b, r1) && RefsPending(j, refList, labels, created, a, r2) && r1 !! r2
    ensures RefsPending(j, refList, labels, created, b, r2)
  {
    forall q | q in r2
      ensures BuiltAt(j, b, created, q) && Findable(j, b, refList, labels, created, q)
    {
      assert BuiltAt(j, a, created, q) && Findable(j, a, refList, labels, created, q);
      assert SameAt(j, created, a, b, q);
    }
  }

  lemma PendingSubset(j: Job, refList: RefList, labels: map<Path, Uuid>, created: map<Path, Uuid>, rows: Db, all: iset<Path>, some: iset<Path>)
    requires RefsPending(j, refList, labels, created, rows, all) && some <= all
    ensures RefsPending(j, refList, labels, created, rows, some)
  {
    forall q | q in some
      ensures BuiltAt(j, rows, created, q) && Findable(j, rows, refList, labels, created, q)
    {
      assert BuiltAt(j, rows, created, q);
    }
  }

  lemma NoRefStage(j: Job, refList: RefList, created: map<Path, Uuid>, rows: Db)
    requires forall q {:trigger Placed(j, created, q)} :: Placed(j, created, q) ==> Place(j, created, q) in rows
    ensures RefStage(j, refList, created, rows, rows, iset{})
  {
    forall q | Placed(j, created, q)
      ensures SameAt(j, created, rows, rows, q)
    {
    }
  }

  /** Filling in the references of one row. */
  lemma OneRefStage(j: Job, refList: RefList, created: map<Path, Uuid>, rows: Db, p: Path)
    requires Placed(j, created, p) && BuiltAt(j, rows, created, p)
    requires forall q {:trigger Placed(j, created, q)} :: Placed(j, created, q) ==> Place(j, created, q) in rows
    requires DistinctPlaces(j, created)
    ensures RefStage(j, refList, created, rows, rows[Place(j, created, p) := FinalRow(j, refList, created, p)], iset{p})
  {
    var u := Place(j, created, p);
    var after := rows[u := FinalRow(j, refList, created, p)];
    forall q | q != p && Placed(j, created, q)
      ensures SameAt(j, created, rows, after, q)
    {
      assert Place(j, created, q) in rows && Place(j, created, q) != u;
    }
    forall v | v in rows && Foreign(j, created, v)
      ensures after[v] == rows[v]
    {
      assert Place(j, created, p) != v;
    }
  }

  ghost predicate DistinctPlaces(j: Job, created: map<Path, Uuid>) {
    forall p, q {:trigger Place(j, created, p), Place(j, created, q)} ::
      Placed(j, created, p) && Placed(j, created, q) && Place(j, created, p) == Place(j, created, q) ==> p == q
  }

  lemma NamedColumns(j: Job, p: Path)
    requires WellPosed(j) && Live(j, p)
    ensures RowRegion(j, p) == iset{p} + ColumnsRegion(j, p, DataAt(j, p).children.Keys)
  {
    AllColumns(j, p);
    forall q | q in ColumnsRegion(j, p, ChildColumns(j, p))
      ensures q in ColumnsRegion(j, p, DataAt(j, p).children.Keys)
    {
      StepBelow(j, p, q);
    }
  }

  /** Since `start` the references in the region `done` have been filled in, those in `todo` have not. */
  ghost predicate RefProgress(j: Job, refList: RefList, labels: map<Path, Uuid>, created: map<Path, Uuid>, start: Db, rows: Db,
                              done: iset<Path>, todo: iset<Path>)
  {
    && RefStage(j, refList, created, start, rows, done)
    && RefsPending(j, refList, labels, created, rows, todo)
    && RegionResolves(j, refList, done)
    && (forall q {:trigger Placed(j, created, q)} :: q in done ==> Placed(j, created, q))
  }

  lemma RefNext(j: Job, refList: RefList, labels: map<Path, Uuid>, created: map<Path, Uuid>, start: Db, a: Db, b: Db,
                done: iset<Path>, next: iset<Path>, rest: iset<Path>)
    requires RefProgress(j, refList, labels, created, start, a, done, next + rest)
    requires done !! next && next !! rest
    requires RefStage(j, refList, created, a, b, next) && RegionResolves(j, refList, next)
    ensures RefProgress(j, refList, labels, created, start, b, done + next, rest)
  {
    RefsCompose(j, refList, created, start, a, b, done, next);
    PendingSubset(j, refList, labels, created, a, next + rest, rest);
    StillPending(j, refList, labels, created, a, b, next, rest);
    forall q | q in next
      ensures Placed(j, created, q)
    {
      assert Findable(j, a, refList, labels, created, q);
    }
  }

  // ---------- the writer ----------

  /** A column of the row that does not hold references of the configuration that may change. */
  ghost predicate NotSet(s: Schema, db: Db, u: Uuid, c: Name) {
    && u in db && c in db[u].refs
    && db[u].table in s.tables && c in s.tables[db[u].table].references
    && var column := s.tables[db[u].table].references[c];
    column.relation != Reference || !column.isConfig || !column.mutable
  }

  /** The column holds the rows that the data names, or none. */
  ghost predicate IsSet(j: Job, refList: RefList, created: map<Path, Uuid>, rows: Db, p: Path, c: Name)
    requires TableAt(j.schema, p) in j.schema.tables && c in j.schema.tables[TableAt(j.schema, p)].references
  {
    var column, u := j.schema.tables[TableAt(j.schema, p)].references[c], Place(j, created, p);
    && u in rows && c in rows[u].refs
    && rows[u].refs[c] == if c in DataAt(j, p).refs then RefTarget(j, refList, column.refTable, DataAt(j, p).refs[c]) else NoRows(column.shape)
  }

  /** References of the configuration that may change are as the data at their location asks. */
  ghost predicate AllSet(j: Job, refList: RefList, created: map<Path, Uuid>, rows: Db) {
    forall p, c {:trigger IsSet(j, refList, created, rows, p, c)} ::
      && Live(j, p) && TableAt(j.schema, p) in j.schema.tables && c in j.schema.tables[TableAt(j.schema, p)].references
      && j.schema.tables[TableAt(j.schema, p)].references[c].relation == Reference
      && j.schema.tables[TableAt(j.schema, p)].references[c].isConfig
      && j.schema.tables[TableAt(j.schema, p)].references[c].mutable
      ==> IsSet(j, refList, created, rows, p, c)
  }

  /** Only references of the configuration that may change differ. */
  ghost predicate OthersUnchanged(s: Schema, before: Db, after: Db) {
    forall u, c {:trigger NotSet(s, before, u, c)} :: NotSet(s, before, u, c) ==>
      u in after && c in after[u].refs && after[u].refs[c] == before[u].refs[c]
  }

  class ReferenceWriter {
    const job: Job
    const refList: RefList
    const labels: map<Path, Uuid>
    ghost const created: map<Path, Uuid>
    var rows: Db

    constructor (job: Job, refList: RefList, labels: map<Path, Uuid>, ghost created: map<Path, Uuid>, rows: Db)
      ensures this.job == job && this.refList == refList && this.labels == labels && this.created == created
      ensures this.rows == rows
    {
      this.job, this.refList, this.labels, this.rows := job, refList, labels, rows;
      this.created := created;
    }

    ghost predicate Ready()
      reads this
    {
      && WellPosed(job)
      && DistinctPlaces(job, created)
      && (forall q {:trigger Placed(job, created, q)} :: Placed(job, created, q) ==> Place(job, created, q) in rows)
    }

    method ResolveSet(t: Name, indexes: set<string>) returns (ok: bool, references: set<Uuid>)
      ensures ok <==> forall i :: i in indexes ==> FindRow(job, refList, t, i).Some?
      ensures ok ==> references == set i | i in indexes :: Found(job, refList, t, i)
    {
      references := {};
      var todo, done := indexes, {};
      while todo != {}
        invariant done !! todo && done + todo == indexes
        invariant forall i :: i in done ==> FindRow(job, refList, t, i).Some?
        invariant references == set i | i in done :: Found(job, refList, t, i)
        decreases todo
      {
        var index :| index in todo;
        var row := FindRow(job, refList, t, index);
        if row.None? {
          return false, {};
        }
        references := references + {row.value};
        todo, done := todo - {index}, done + {index};
      }
      ok := true;
    }

    method ResolveMap(t: Name, entries: map<string, string>) returns (ok: bool, references: map<string, Uuid>)
      ensures ok <==> forall k :: k in entries ==> FindRow(job, refList, t, entries[k]).Some?
      ensures ok ==> references == map k | k in entries :: Found(job, refList, t, entries[k])
    {
      references := map[];
      var todo, done := entries.Keys, {};
      while todo != {}
        invariant done !! todo && done + todo == entries.Keys
        invariant forall k :: k in done ==> FindRow(job, refList, t, entries[k]).Some?
        invariant references == map k | k in done :: Found(job, refList, t, entries[k])
        decreases todo
      {
        var key :| key in todo;
        var row := FindRow(job, refList, t, entries[key]);
        if row.None? {
          return false, map[];
        }
        references := references[key := row.value];
        todo, done := todo - {key}, done + {key};
      }
      ok := true;
    }

    /** Resolves the reference data of one column; fails when a row is not found. */
    method Resolve(t: Name, d: RefData) returns (ok: bool, column: RefValue)
      ensures ok <==> Resolves(job, refList, t, d)
      ensures ok ==> column == RefTarget(job, refList, t, d)
    {
      match d
      case Index(index) =>
        var row := FindRow(job, refList, t, index);
        ok := row.Some?;
        column := if ok then Rows({row.value}) else Rows({});
      case IndexSet(indexes) =>
        var found, references := ResolveSet(t, indexes);
        ok, column := found, Rows(references);
      case IndexMap(entries) =>
        var found, references := ResolveMap(t, entries);
        assert forall k :: k in entries ==> entries[k] in IndexesIn(d);
        ok, column := found, Map(references);
    }

    /** What a reference column is set to: the rows that the data names, or none. */
    method ResolveColumn(p: Path, data: Data, t: Name, c: Name) returns (ok: bool, column: RefValue)
      requires NodeAt(job.root, p) == Some(data) && t == TableAt(job.schema, p) && t in job.schema.tables
      requires c in job.schema.tables[t].references
      ensures ok <==> (c in data.refs ==> Resolves(job, refList, job.schema.tables[t].references[c].refTable, data.refs[c]))
      ensures ok ==> column == ColumnTarget(job, refList, p, c)
    {
      var ref := job.schema.tables[t].references[c];
      ok, column := true, NoRows(ref.shape);
      if c in data.refs {
        ok, column := Resolve(ref.refTable, data.refs[c]);
      }
    }

    /** Fills in the reference columns of the row at `p`. */
    method SetReferences(p: Path, data: Data, u: Uuid, t: Name) returns (ok: bool)
      requires NodeAt(job.root, p) == Some(data) && t == TableAt(job.schema, p) && t in job.schema.tables
      requires u in rows && rows[u].refs.Keys == job.schema.tables[t].references.Keys
      modifies this`rows
      ensures ok <==> RowResolves(job, refList, p)
      ensures rows.Keys == old(rows).Keys
      ensures ok ==> rows == old(rows)[u := WithRefs(job, refList, p, old(rows)[u], WrittenColumns(job, p))]
      ensures ok ==> forall c :: c in job.schema.tables[t].references ==>
                var column := job.schema.tables[t].references[c];
                rows[u].refs[c] == if column.relation == Reference && column.isConfig && column.mutable
                                   then (if c in data.refs then RefTarget(job, refList, column.refTable, data.refs[c]) else NoRows(column.shape))
                                   else old(rows)[u].refs[c]
    {
      var ts := job.schema.tables[t];
      ghost var row, start := rows[u], rows;
      var todo := set c | c in ts.references && IsWritten(ts, c);
      ghost var done: set<Name> := {};
      assert WithRefs(job, refList, p, row, {}).refs == row.refs;
      while todo != {}
        invariant done !! todo && done + todo == WrittenColumns(job, p)
        invariant rows == start[u := WithRefs(job, refList, p, row, done)]
        invariant forall c :: c in done && c in data.refs ==> Resolves(job, refList, ts.references[c].refTable, data.refs[c])
        decreases todo
      {
        var name :| name in todo;
        todo := todo - {name};
        var column;
        ok, column := ResolveColumn(p, data, t, name);
        if !ok {
          return;
        }
        RefStep(row, p, done, name);
        rows := rows[u := rows[u].(refs := rows[u].refs[name := column])];
        done := done + {name};
      }
      ok := true;
    }

    lemma RefStep(row: Row, p: Path, done: set<Name>, name: Name)
      requires name in row.refs
      ensures var before := WithRefs(job, refList, p, row, done);
              before.(refs := before.refs[name := ColumnTarget(job, refList, p, name)])
              == WithRefs(job, refList, p, row, done + {name})
    {
      assert WithRefs(job, refList, p, row, done + {name}).refs
          == WithRefs(job, refList, p, row, done).refs[name := ColumnTarget(job, refList, p, name)];
    }
  
    /** The row of a location: by UUID when its entry was re-keyed, by index otherwise. */
    function RowAt(p: Path, t: Name): Option<Uuid>
      requires p != []
    {
      if p in labels then Some(labels[p])
      else if t == SYSTEM_TABLE then Some(job.system)
      else FindRow(job, refList, t, Last(p).key)
    }

    lemma RowIsFound(p: Path)
      requires WellPosed(job) && Findable(job, rows, refList, labels, created, p) && p != []
      requires LabelsInv(job, created, labels)
      ensures RowAt(p, TableAt(job.schema, p)) == Some(Place(job, created, p))
    {
      assert p in labels ==> Labelled(job, created, labels, p);
      assert Fits(job, p);
      if |p| == 1 {
        TopTable(job, p);
      } else {
        KeyedTable(job, p);
        assert ValidTable(job.schema, TableAt(job.schema, p));
      }
    }

    /** A location that could not be given a row is skipped. */
    lemma RowIsMissing(p: Path)
      requires WellPosed(job) && Listable(job, refList)
      requires NodeAt(job.root, p).Some? && !Live(job, p) && p != [] && (|p| > 1 ==> Live(job, Parent(p)))
      requires LabelsInv(job, created, labels)
      ensures RowAt(p, TableAt(job.schema, p)) == None
    {
      assert p in labels ==> Labelled(job, created, labels, p);
      assert Fits(job, p);
      if |p| == 1 {
        TopTable(job, p);
      } else {
        KeyedTable(job, p);
        assert ValidTable(job.schema, TableAt(job.schema, p));
      }
    }

    lemma RowLookedUp(p: Path)
      requires Ready() && LabelsInv(job, created, labels) && Listable(job, refList) && p != []
      requires NodeAt(job.root, p).Some? && (|p| > 1 ==> Live(job, Parent(p)))
      requires RefsPending(job, refList, labels, created, rows, RowRegion(job, p))
      ensures RowAt(p, TableAt(job.schema, p)) == if Live(job, p) then Some(Place(job, created, p)) else None
      ensures Live(job, p) ==> BuiltAt(job, rows, created, p)
    {
      if Live(job, p) {
        assert p <= p && p in RowRegion(job, p);
        assert Findable(job, rows, refList, labels, created, p);
        RowIsFound(p);
      } else {
        RowIsMissing(p);
      }
    }

    /** Fills in the references of a row and of everything below it. */
    method SetupRowReferences(p: Path, data: Data, t: Name) returns (ok: bool)
      requires Ready() && LabelsInv(job, created, labels) && Listable(job, refList) && p != []
      requires NodeAt(job.root, p) == Some(data) && t == TableAt(job.schema, p)
      requires |p| > 1 ==> Live(job, Parent(p))
      requires RefsPending(job, refList, labels, created, rows, RowRegion(job, p))
      modifies this`rows
      ensures rows.Keys == old(rows).Keys
      ensures ok <==> RegionResolves(job, refList, RowRegion(job, p))
      ensures ok ==> RefStage(job, refList, created, old(rows), rows, RowRegion(job, p))
      decreases data, 3
    {
      RowLookedUp(p);
      var row := RowAt(p, t);
      if row.None? {
        NothingBelow(job, p);
        NoRefStage(job, refList, created, rows);
        return true;
      }
      ok := SetupFoundReferences(p, data, row.value, t);
    }

    method SetupFoundReferences(p: Path, data: Data, u: Uuid, t: Name) returns (ok: bool)
      requires Ready() && LabelsInv(job, created, labels) && Listable(job, refList) && p != []
      requires NodeAt(job.root, p) == Some(data) && t == TableAt(job.schema, p)
      requires Live(job, p) && Placed(job, created, p) && u == Place(job, created, p) && BuiltAt(job, rows, created, p)
      requires RefsPending(job, refList, labels, created, rows, RowRegion(job, p))
      modifies this`rows
      ensures rows.Keys == old(rows).Keys
      ensures ok <==> RegionResolves(job, refList, RowRegion(job, p))
      ensures ok ==> RefStage(job, refList, created, old(rows), rows, RowRegion(job, p))
      decreases data, 2
    {
      BuiltRefs(p);
      NamedColumns(job, p);
      ghost var region, start := ColumnsRegion(job, p, data.children.Keys), rows;
      OwnReferences(p, region);
      ok := SetReferences(p, data, u, t);
      if !ok {
        return;
      }
      ghost var middle := rows;
      ok := SetupChildReferences(p, data, t);
      if ok {
        RefsCompose(job, refList, created, start, middle, rows, iset{p}, region);
      }
    }

    /** Setting the references of one row leaves those below it to be set. */
    lemma OwnReferences(p: Path, region: iset<Path>)
      requires Ready() && Live(job, p) && RowRegion(job, p) == iset{p} + region && p !in region
      requires Placed(job, created, p) && BuiltAt(job, rows, created, p)
      requires RefsPending(job, refList, labels, created, rows, RowRegion(job, p))
      ensures var after := rows[Place(job, created, p) := FinalRow(job, refList, created, p)];
              && RefStage(job, refList, created, rows, after, iset{p})
              && RefsPending(job, refList, labels, created, after, region)
    {
      var after := rows[Place(job, created, p) := FinalRow(job, refList, created, p)];
      OneRefStage(job, refList, created, rows, p);
      PendingSubset(job, refList, labels, created, rows, RowRegion(job, p), region);
      StillPending(job, refList, labels, created, rows, after, iset{p}, region);
    }

    lemma BuiltRefs(p: Path)
      requires WellPosed(job) && Live(job, p) && BuiltAt(job, rows, created, p)
      ensures TableAt(job.schema, p) in job.schema.tables
      ensures rows[Place(job, created, p)].refs.Keys == job.schema.tables[TableAt(job.schema, p)].references.Keys
    {
      if Exist(job, p).Some? {
        OldStartRow(job, p, Exist(job, p).value);
      } else {
        NewStartRow(job, p);
      }
    }

    method SetupChildReferences(p: Path, data: Data, t: Name) returns (ok: bool)
      requires Ready() && LabelsInv(job, created, labels) && Listable(job, refList) && Live(job, p)
      requires NodeAt(job.root, p) == Some(data) && t == TableAt(job.schema, p)
      requires RefsPending(job, refList, labels, created, rows, ColumnsRegion(job, p, data.children.Keys))
      modifies this`rows
      ensures rows.Keys == old(rows).Keys
      ensures ok <==> RegionResolves(job, refList, ColumnsRegion(job, p, data.children.Keys))
      ensures ok ==> RefStage(job, refList, created, old(rows), rows, ColumnsRegion(job, p, data.children.Keys))
      decreases data, 1
    {
      var todo, done := data.children.Keys, {};
      ghost var start := rows;
      NoRefStage(job, refList, created, rows);
      assert ColumnsRegion(job, p, {}) == iset{};
      while todo != {}
        invariant done !! todo && done + todo == data.children.Keys
        invariant rows.Keys == start.Keys
        invariant RefProgress(job, refList, labels, created, start, rows, ColumnsRegion(job, p, done), ColumnsRegion(job, p, todo))
        decreases todo
      {
        var child :| child in todo;
        NextColumn(job, p, todo - {child}, child);
        NextColumn(job, p, done, child);
        ghost var before, next, rest := rows, ColumnsRegion(job, p, {child}), ColumnsRegion(job, p, todo - {child});
        assert todo - {child} + {child} == todo;
        PendingSubset(job, refList, labels, created, rows, next + rest, next);
        ok := SetupEntryReferences(p, data, child, t);
        if !ok {
          ColumnInAll(p, child, data.children.Keys);
          return;
        }
        RefNext(job, refList, labels, created, start, before, rows, ColumnsRegion(job, p, done), next, rest);
        todo, done := todo - {child}, done + {child};
      }
      ok := true;
    }

    lemma ColumnInAll(p: Path, c: Name, all: set<Name>)
      requires c in all
      ensures ColumnsRegion(job, p, {c}) <= ColumnsRegion(job, p, all)
    {
    }

    method SetupEntryReferences(p: Path, data: Data, c: Name, t: Name) returns (ok: bool)
      requires Ready() && LabelsInv(job, created, labels) && Listable(job, refList) && Live(job, p)
      requires NodeAt(job.root, p) == Some(data) && t == TableAt(job.schema, p) && c in data.children
      requires RefsPending(job, refList, labels, created, rows, ColumnsRegion(job, p, {c}))
      modifies this`rows
      ensures rows.Keys == old(rows).Keys
      ensures ok <==> RegionResolves(job, refList, ColumnsRegion(job, p, {c}))
      ensures ok ==> RefStage(job, refList, created, old(rows), rows, ColumnsRegion(job, p, {c}))
      decreases data, 0
    {
      AllEntries(job, p, c);
      var entries := data.children[c].entries;
      var todo, done := entries.Keys, {};
      ghost var start := rows;
      NoRefStage(job, refList, created, rows);
      assert EntriesRegion(job, p, c, {}) == iset{};
      EntryTable(p, data, c);
      while todo != {}
        invariant done !! todo && done + todo == entries.Keys
        invariant rows.Keys == start.Keys
        invariant RefProgress(job, refList, labels, created, start, rows, EntriesRegion(job, p, c, done), EntriesRegion(job, p, c, todo))
        decreases todo
      {
        var k :| k in todo;
        var q := p + [Step(c, k)];
        NextEntry(job, p, c, todo - {k}, k);
        NextEntry(job, p, c, done, k);
        ghost var before, next, rest := rows, RowRegion(job, q), EntriesRegion(job, p, c, todo - {k});
        assert todo - {k} + {k} == todo;
        PendingSubset(job, refList, labels, created, rows, next + rest, next);
        ChildPath(p, Step(c, k));
        ok := SetupRowReferences(q, entries[k], job.schema.tables[t].references[c].refTable);
        if !ok {
          EntryInAll(p, c, k, entries.Keys);
          return;
        }
        RefNext(job, refList, labels, created, start, before, rows, EntriesRegion(job, p, c, done), next, rest);
        todo, done := todo - {k}, done + {k};
      }
      ok := true;
    }

    lemma EntryTable(p: Path, data: Data, c: Name)
      requires WellPosed(job) && NodeAt(job.root, p) == Some(data) && c in data.children
      ensures TableAt(job.schema, p) in job.schema.tables && c in job.schema.tables[TableAt(job.schema, p)].references
    {
      assert Fits(job, p);
      var named := data.children[c];
    }

    lemma EntryInAll(p: Path, c: Name, k: string, all: set<string>)
      requires k in all
      ensures RowRegion(job, p + [Step(c, k)]) <= EntriesRegion(job, p, c, all)
    {
      NextEntry(job, p, c, {}, k);
      assert RowRegion(job, p + [Step(c, k)]) <= EntriesRegion(job, p, c, {} + {k});
    }

    /** Fills in the references below one top-level table. */
    method SetupTableReferences(t: Name) returns (ok: bool)
      requires Ready() && LabelsInv(job, created, labels) && Listable(job, refList) && t in job.root
      requires RefsPending(job, refList, labels, created, rows, ColumnsRegion(job, [], {t}))
      modifies this`rows
      ensures rows.Keys == old(rows).Keys
      ensures ok <==> RegionResolves(job, refList, ColumnsRegion(job, [], {t}))
      ensures ok ==> RefStage(job, refList, created, old(rows), rows, ColumnsRegion(job, [], {t}))
    {
      TableEntries(job, t);
      var entries := job.root[t].entries;
      var todo, done := entries.Keys, {};
      ghost var start := rows;
      NoRefStage(job, refList, created, rows);
      assert EntriesRegion(job, [], t, {}) == iset{};
      while todo != {}
        invariant done !! todo && done + todo == entries.Keys
        invariant rows.Keys == start.Keys
        invariant RefProgress(job, refList, labels, created, start, rows, EntriesRegion(job, [], t, done), EntriesRegion(job, [], t, todo))
        decreases todo
      {
        var k :| k in todo;
        NextEntry(job, [], t, todo - {k}, k);
        NextEntry(job, [], t, done, k);
        TopLocation(job, t, k);
        ghost var before, next, rest := rows, RowRegion(job, [Step(t, k)]), EntriesRegion(job, [], t, todo - {k});
        assert todo - {k} + {k} == todo;
        PendingSubset(job, refList, labels, created, rows, next + rest, next);
        ok := SetupRowReferences([Step(t, k)], entries[k], t);
        if !ok {
          EntryInAll([], t, k, entries.Keys);
          return;
        }
        RefNext(job, refList, labels, created, start, before, rows, EntriesRegion(job, [], t, done), next, rest);
        todo, done := todo - {k}, done + {k};
      }
      ok := true;
    }

    lemma AllOthersStay(start: Db)
      requires Ready() && RefStage(job, refList, created, start, rows, AllLocations(job))
      requires forall q {:trigger BuiltAt(job, start, created, q)} :: Live(job, q) ==> BuiltAt(job, start, created, q)
      ensures OthersUnchanged(job.schema, start, rows)
    {
      forall u, c | NotSet(job.schema, start, u, c)
        ensures u in rows && c in rows[u].refs && rows[u].refs[c] == start[u].refs[c]
      {
        OthersStay(start, u, c);
      }
    }

    lemma OthersStay(start: Db, u: Uuid, c: Name)
      requires Ready() && RefStage(job, refList, created, start, rows, AllLocations(job))
      requires forall q {:trigger BuiltAt(job, start, created, q)} :: Live(job, q) ==> BuiltAt(job, start, created, q)
      requires NotSet(job.schema, start, u, c)
      ensures u in rows && c in rows[u].refs && rows[u].refs[c] == start[u].refs[c]
    {
      if p :| Live(job, p) && Place(job, created, p) == u {
        assert BuiltAt(job, start, created, p);
        assert FinalAt(job, refList, created, rows, p);
        BuiltTable(start, p);
      } else {
        assert Foreign(job, created, u);
      }
    }

    lemma BuiltTable(start: Db, p: Path)
      requires WellPosed(job) && Live(job, p) && BuiltAt(job, start, created, p)
      ensures start[Place(job, created, p)].table == TableAt(job.schema, p)
    {
      if Exist(job, p).Some? {
        OldStartRow(job, p, Exist(job, p).value);
      } else {
        NewStartRow(job, p);
      }
    }

    lemma AllReferencesSet()
      requires Ready() && forall q {:trigger FinalAt(job, refList, created, rows, q)} :: Live(job, q) ==> FinalAt(job, refList, created, rows, q)
      ensures AllSet(job, refList, created, rows)
    {
      forall p, c | Live(job, p) && TableAt(job.schema, p) in job.schema.tables
                    && c in job.schema.tables[TableAt(job.schema, p)].references
                    && job.schema.tables[TableAt(job.schema, p)].references[c].relation == Reference
                    && job.schema.tables[TableAt(job.schema, p)].references[c].isConfig
                    && job.schema.tables[TableAt(job.schema, p)].references[c].mutable
        ensures IsSet(job, refList, created, rows, p, c)
      {
        ReferenceIsSet(p, c);
      }
    }

    lemma ReferenceIsSet(p: Path, c: Name)
      requires Ready() && Live(job, p) && FinalAt(job, refList, created, rows, p)
      requires TableAt(job.schema, p) in job.schema.tables && c in job.schema.tables[TableAt(job.schema, p)].references
      requires var column := job.schema.tables[TableAt(job.schema, p)].references[c];
               column.relation == Reference && column.isConfig && column.mutable
      ensures IsSet(job, refList, created, rows, p, c)
    {
      if Exist(job, p).Some? {
        OldStartRow(job, p, Exist(job, p).value);
      } else {
        NewStartRow(job, p);
      }
    }

    /** The second phase: the references of all locations; fails when one leads nowhere. */
    method SetupAllReferences() returns (ok: bool)
      requires Ready() && LabelsInv(job, created, labels) && Listable(job, refList)
      requires RefsPending(job, refList, labels, created, rows, AllLocations(job))
      modifies this`rows
      ensures rows.Keys == old(rows).Keys
      ensures ok <==> RegionResolves(job, refList, AllLocations(job))
      ensures ok ==> RefStage(job, refList, created, old(rows), rows, AllLocations(job))
      ensures ok ==> AllSet(job, refList, created, rows) && OthersUnchanged(job.schema, old(rows), rows)
    {
      var todo := set t | t in job.schema.tables && IsTopLevel(job.schema, t);
      ghost var start, tables, done: set<Name> := rows, todo, {};
      NoRefStage(job, refList, created, rows);
      TablesCover(job, tables);
      assert ColumnsRegion(job, [], {}) == iset{};
      while todo != {}
        invariant done !! todo && done + todo == tables
        invariant rows.Keys == start.Keys
        invariant RefProgress(job, refList, labels, created, start, rows, ColumnsRegion(job, [], done), ColumnsRegion(job, [], todo))
        decreases todo
      {
        var t :| t in todo;
        NextColumn(job, [], todo - {t}, t);
        NextColumn(job, [], done, t);
        ghost var before, next, rest := rows, ColumnsRegion(job, [], {t}), ColumnsRegion(job, [], todo - {t});
        assert todo - {t} + {t} == todo;
        if t in job.root {
          PendingSubset(job, refList, labels, created, rows, next + rest, next);
          ok := SetupTableReferences(t);
          if !ok {
            return;
          }
        } else {
          NoLocations(job, t);
          NoRefStage(job, refList, created, rows);
        }
        RefNext(job, refList, labels, created, start, before, rows, ColumnsRegion(job, [], done), next, rest);
        todo, done := todo - {t}, done + {t};
      }
      ok := true;
      AllOthersStay(start);
      AllReferencesSet();
    }
  }
}
