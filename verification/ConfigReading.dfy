/** A configuration that was read from the replica: every location of it leads back to the row that
    was read there, so it is a configuration that can be written. */
module ConfigReading {
  import opened Options
  import opened Database
  import opened Deletion
  import opened ConfigTree
  import opened ConfigRead

  ghost predicate SystemRow(j: Job) {
    && j.system in j.base && j.base[j.system].table == SYSTEM_TABLE
    && (forall u {:trigger j.base[u]} :: u in j.base && j.base[u].table == SYSTEM_TABLE ==> u == j.system)
  }

  /** The replica is in order. */
  ghost predicate InOrder(j: Job) {
    && ValidSchema(j.schema)
    && ValidDb(j.schema, j.base)
    && Forest(j.schema, j.base)
    && IndexExact(j)
    && SystemRow(j)
  }

  /** The configuration of the job is what reading its replica gives. */
  ghost predicate IsReading(j: Job) {
    && InOrder(j)
    && SYSTEM_TABLE in j.root
    && j.root == ReadRoot(j.schema, j.base)
  }

  // ---------- entries and the rows they were read from ----------

  lemma ByIndexHas(data: map<Uuid, (string, Data)>, k: string) returns (v: Uuid)
    requires k in ByIndex(data)
    ensures v in data && data[v] == (k, ByIndex(data)[k])
  {
    v :| v in data && data[v].0 == k && DataOf(data, k) == data[v].1;
  }

  lemma ChildEntryRow(s: Schema, db: Db, t: Name, c: Name, column: RefValue, k: string) returns (v: Uuid)
    requires ValidSchema(s) && t in s.tables && IsChildColumn(s.tables[t], c)
    requires k in ReadChildren(s, db, t, c, column)
    ensures v in Targets(column)
    ensures ReadRow(s, db, s.tables[t].references[c].refTable, v) == Some(ReadChildren(s, db, t, c, column)[k])
    ensures column.Map? ==> k in column.entries && column.entries[k] == v
    ensures column.Rows? ==> IndexAt(s, db, v) == k
  {
    var ct := s.tables[t].references[c].refTable;
    match column
    case Rows(rows) =>
      v := ByIndexHas(map w | w in rows && ReadRow(s, db, ct, w).Some? :: (IndexAt(s, db, w), ReadRow(s, db, ct, w).value), k);
    case Map(entries) =>
      v := entries[k];
  }

  lemma TopEntryRow(s: Schema, db: Db, t: Name, k: string) returns (v: Uuid)
    requires ValidSchema(s) && k in ReadTable(s, db, t)
    ensures v in RowsIn(db, t) && ReadRow(s, db, t, v) == Some(ReadTable(s, db, t)[k]) && IndexAt(s, db, v) == k
  {
    v := ByIndexHas(map u | u in RowsIn(db, t) && ReadRow(s, db, t, u).Some? :: (IndexAt(s, db, u), ReadRow(s, db, t, u).value), k);
  }

  lemma ReadRowIs(s: Schema, db: Db, t: Name, u: Uuid)
    requires ValidSchema(s) && ReadRow(s, db, t, u).Some?
    ensures u in db && db[u].table == t && t in s.tables && HasConfigCategory(s.tables[t]) && !Hidden(db[u])
    ensures var d := ReadRow(s, db, t, u).value;
            && d != EMPTY_DATA
            && d.config == ReadConfig(s.tables[t], db[u].config)
            && d.refs == ReadRefs(s, db, s.tables[t], db[u].refs)
            && d.children == ReadColumns(s, db, t, db[u].refs)
  {
  }

  /** The index string of a committed row looks the row up. */
  lemma IndexLooksUp(j: Job, u: Uuid)
    requires IndexExact(j) && Indexed(j.schema, j.base, u)
    ensures Lookup(j, j.base[u].table, RowIndex(j.schema, j.base, u)) == Some(u)
    ensures CleanKey(RowKey(j.schema, j.base, u))
  {
    assert RowListed(j, u);
    IndexOfSplits(j.schema.tables[j.base[u].table], j.base[u].config);
  }

  /** The row at a location is the one that its data was read from, under its own index. */
  ghost predicate ReadFrom(j: Job, p: Path)
    requires ValidSchema(j.schema)
  {
    && p != [] && Exist(j, p).Some?
    && var u, t := Exist(j, p).value, TableAt(j.schema, p);
    && u in j.base && j.base[u].table == t && t in j.schema.tables
    && ReadRow(j.schema, j.base, t, u) == NodeAt(j.root, p)
    && (j.schema.tables[t].indexes != [] ==> Indexed(j.schema, j.base, u) && Last(p).key == RowIndex(j.schema, j.base, u))
  }

  /** It is in the place that the path names. */
  ghost predicate FoundIn(j: Job, p: Path, t: Name, u: Uuid)
    requires ValidSchema(j.schema) && p != [] && t in j.schema.tables
  {
    if |p| == 1 then j.schema.tables[t].parent.None? && (t == SYSTEM_TABLE ==> Last(p).key == "")
    else
      && j.schema.tables[t].parent.Some?
      && Exist(j, Parent(p)).Some?
      && InPlace(j, Exist(j, Parent(p)).value, Last(p), u)
      && (IsKeyed(j.schema, p) <==> j.schema.tables[t].indexes == [])
      && (IsKeyed(j.schema, p) ==> UnderKey(j, Exist(j, Parent(p)).value, Last(p), u))
  }

  ghost predicate InPlace(j: Job, owner: Uuid, step: Step, u: Uuid) {
    IsChildOf(j.schema, j.base, owner, step.column, u)
  }

  ghost predicate UnderKey(j: Job, owner: Uuid, step: Step, u: Uuid) {
    HasKey(j.schema, j.base, owner, step.column, step.key) && j.base[owner].refs[step.column].entries[step.key] == u
  }

  ghost predicate ReadAt(j: Job, p: Path)
    requires ValidSchema(j.schema)
  {
    ReadFrom(j, p) && FoundIn(j, p, TableAt(j.schema, p), Exist(j, p).value)
  }

  /** What a location of length one is. */
  lemma OneStep(j: Job, p: Path)
    requires |p| == 1 && NodeAt(j.root, p).Some?
    ensures Last(p) == p[0] && TableAt(j.schema, p) == p[0].column && !IsKeyed(j.schema, p)
    ensures p[0].column in j.root && p[0].key in j.root[p[0].column].entries
    ensures NodeAt(j.root, p) == Some(j.root[p[0].column].entries[p[0].key])
    ensures Exist(j, p) == if p[0].column == SYSTEM_TABLE then Some(j.system) else Lookup(j, p[0].column, p[0].key)
  {
  }

  /** The row that an entry of a top-level table was read from. */
  lemma TopRow(j: Job, t: Name, k: string) returns (v: Uuid)
    requires IsReading(j) && t in j.root && k in j.root[t].entries
    ensures v in j.base && j.base[v].table == t && t in j.schema.tables && j.schema.tables[t].parent.None?
    ensures ReadRow(j.schema, j.base, t, v) == Some(j.root[t].entries[k]) && IndexAt(j.schema, j.base, v) == k
    ensures t == SYSTEM_TABLE ==> v == j.system && k == "" && j.schema.tables[t].indexes == []
    ensures t != SYSTEM_TABLE ==> Indexed(j.schema, j.base, v) && Lookup(j, t, k) == Some(v) && j.schema.tables[t].indexes != []
  {
    assert ValidTable(j.schema, t);
    v := TopEntryRow(j.schema, j.base, t, k);
    assert ValidRow(j.schema, j.base[v]);
    if t != SYSTEM_TABLE {
      IndexLooksUp(j, v);
    }
  }

  lemma ReadTop(j: Job, p: Path)
    requires IsReading(j) && NodeAt(j.root, p).Some? && |p| == 1
    ensures ReadAt(j, p)
  {
    OneStep(j, p);
    var v := TopRow(j, p[0].column, p[0].key);
  }

  /** `v` is the row that the entry `step` of row `u` was read from. */
  ghost predicate EntryFrom(j: Job, u: Uuid, t: Name, step: Step, d: Data, v: Uuid)
    requires ValidSchema(j.schema) && t in j.schema.tables && step.column in j.schema.tables[t].references
  {
    var ct := j.schema.tables[t].references[step.column].refTable;
    && ct in j.schema.tables && v in j.base && j.base[v].table == ct && j.schema.tables[ct].parent.Some?
    && ReadRow(j.schema, j.base, ct, v) == Some(d)
    && InPlace(j, u, step, v)
    && (j.schema.tables[t].references[step.column].shape == Keyed <==> j.schema.tables[ct].indexes == [])
    && (j.schema.tables[ct].indexes == [] ==> UnderKey(j, u, step, v))
    && (j.schema.tables[ct].indexes != [] ==> Indexed(j.schema, j.base, v) && RowIndex(j.schema, j.base, v) == step.key)
  }

  lemma CommittedRow(j: Job, v: Uuid)
    requires IsReading(j) && v in j.base
    ensures j.base[v].table in j.schema.tables
    ensures j.schema.tables[j.base[v].table].indexes != [] ==> Indexed(j.schema, j.base, v)
  {
    assert ValidRow(j.schema, j.base[v]);
  }

  lemma ColumnIsRead(s: Schema, db: Db, t: Name, refs: map<Name, RefValue>, c: Name)
    requires ValidSchema(s) && t in s.tables && c in ReadColumns(s, db, t, refs)
    ensures c in refs && IsChildColumn(s.tables[t], c)
    ensures ReadColumns(s, db, t, refs)[c].entries == ReadChildren(s, db, t, c, refs[c]) != map[]
  {
  }

  lemma ChildColumnTable(s: Schema, t: Name, c: Name)
    requires ValidSchema(s) && t in s.tables && IsChildColumn(s.tables[t], c)
    ensures var ct := s.tables[t].references[c].refTable;
            && ct in s.tables && s.tables[ct].parent.Some?
            && (s.tables[t].references[c].shape == Keyed <==> s.tables[ct].indexes == [])
  {
    assert ValidColumn(s, t, c);
  }

  lemma EntryIsRead(j: Job, u: Uuid, t: Name, step: Step, d: Data) returns (v: Uuid)
    requires IsReading(j) && ReadRow(j.schema, j.base, t, u) == Some(d)
    requires step.column in d.children && step.key in d.children[step.column].entries
    ensures t in j.schema.tables && step.column in j.schema.tables[t].references
    ensures EntryFrom(j, u, t, step, d.children[step.column].entries[step.key], v)
  {
    ReadRowIs(j.schema, j.base, t, u);
    ColumnIsRead(j.schema, j.base, t, j.base[u].refs, step.column);
    ChildColumnTable(j.schema, t, step.column);
    assert ValidRow(j.schema, j.base[u]);
    v := ChildEntryRow(j.schema, j.base, t, step.column, j.base[u].refs[step.column], step.key);
    assert InPlace(j, u, step, v);
    KidIsLower(j.schema, j.base, u, step.column, v);
    CommittedRow(j, v);
  }

  lemma ReadChildFrom(j: Job, p: Path, v: Uuid)
    requires IsReading(j) && NodeAt(j.root, p).Some? && |p| > 1 && Exist(j, Parent(p)).Some?
    requires TableAt(j.schema, Parent(p)) in j.schema.tables
    requires Last(p).column in j.schema.tables[TableAt(j.schema, Parent(p))].references
    requires EntryFrom(j, Exist(j, Parent(p)).value, TableAt(j.schema, Parent(p)), Last(p), NodeAt(j.root, p).value, v)
    ensures Exist(j, p) == Some(v) && ReadFrom(j, p)
  {
    assert ValidTable(j.schema, j.base[v].table);
    if j.schema.tables[j.base[v].table].indexes != [] {
      IndexLooksUp(j, v);
    }
  }

  lemma ReadChild(j: Job, p: Path)
    requires IsReading(j) && NodeAt(j.root, p).Some? && |p| > 1 && ReadFrom(j, Parent(p))
    ensures ReadAt(j, p)
  {
    var v := EntryIsRead(j, Exist(j, Parent(p)).value, TableAt(j.schema, Parent(p)), Last(p), NodeAt(j.root, Parent(p)).value);
    ReadChildFrom(j, p, v);
  }

  /** Every location of the reading leads to the row that was read there. */
  lemma {:induction false} ReadEverywhere(j: Job, p: Path)
    requires IsReading(j) && NodeAt(j.root, p).Some?
    ensures ReadAt(j, p)
    decreases |p|
  {
    if |p| == 1 {
      ReadTop(j, p);
    } else {
      ReadEverywhere(j, Parent(p));
      ReadChild(j, p);
    }
  }

  lemma SameOwner(j: Job, p: Path, q: Path, u: Uuid, t: Name)
    requires IsReading(j) && |p| > 1 && |q| > 1 && t in j.schema.tables
    requires FoundIn(j, p, t, u) && FoundIn(j, q, t, u)
    requires j.schema.tables[t].indexes != [] ==> Last(p).key == Last(q).key
    ensures Exist(j, Parent(p)).Some? && Exist(j, Parent(p)) == Exist(j, Parent(q)) && Last(p) == Last(q)
  {
    var u1, u2 := Exist(j, Parent(p)).value, Exist(j, Parent(q)).value;
    assert InPlace(j, u1, Last(p), u) && InPlace(j, u2, Last(q), u);
  }

  lemma TopPath(s: Schema, p: Path)
    requires |p| == 1
    ensures p == [Step(TableAt(s, p), Last(p).key)]
  {
  }

  lemma SamePath(p: Path, q: Path)
    requires p != [] && q != [] && Parent(p) == Parent(q) && Last(p) == Last(q)
    ensures p == q
  {
    assert p == Parent(p) + [Last(p)] && q == Parent(q) + [Last(q)];
  }

  lemma TopOnce(j: Job, p: Path, q: Path)
    requires IsReading(j) && ReadAt(j, p) && ReadAt(j, q) && Exist(j, p) == Exist(j, q)
    requires |p| == 1 || |q| == 1
    ensures p == q
  {
    var t := TableAt(j.schema, p);
    assert ValidTable(j.schema, t);
    assert |p| == 1 && |q| == 1 && Last(p).key == Last(q).key;
    TopPath(j.schema, p);
    TopPath(j.schema, q);
  }

  /** Since rows form a forest, no row is read at two locations. */
  lemma {:induction false} ReadOnce(j: Job, p: Path, q: Path)
    requires IsReading(j) && NodeAt(j.root, p).Some? && NodeAt(j.root, q).Some?
    requires Exist(j, p) == Exist(j, q)
    ensures p == q
    decreases |p|
  {
    ReadEverywhere(j, p);
    ReadEverywhere(j, q);
    if |p| == 1 || |q| == 1 {
      TopOnce(j, p, q);
    } else {
      SameOwner(j, p, q, Exist(j, p).value, TableAt(j.schema, p));
      ReadOnce(j, Parent(p), Parent(q));
      SamePath(p, q);
    }
  }

  // ---------- a reading can be written ----------

  lemma ReadConfigFits(ts: TableSchema, config: map<Name, Value>)
    requires Indexable(ts, config) && config.Keys == ts.config.Keys
    requires ts.indexes != [] ==> CleanKey(KeyOf(ts, config))
    ensures forall c :: c in ReadConfig(ts, config) ==> c in ts.config && !IsEmpty(ReadConfig(ts, config)[c])
    ensures Indexable(ts, ReadConfig(ts, config)) && KeyOf(ts, ReadConfig(ts, config)) == KeyOf(ts, config)
  {
    forall i | 0 <= i < |ts.indexes|
      ensures ts.indexes[i] in ReadConfig(ts, config) && ReadConfig(ts, config)[ts.indexes[i]] == config[ts.indexes[i]]
    {
      assert KeyOf(ts, config)[i] != "";
    }
  }

  lemma ReadRefFits(s: Schema, db: Db, column: RefColumn, v: RefValue)
    requires v.Map? <==> column.shape == Keyed
    requires Targets(v) != {}
    ensures RefFits(column, ReadRef(s, db, column.shape, v))
  {
    var u :| u in Targets(v);
    match v
    case Rows(rows) =>
      assert column.shape != One ==> IndexAt(s, db, u) in ReadRef(s, db, column.shape, v).indexes;
    case Map(entries) =>
      var k :| k in entries && entries[k] == u;
      assert k in ReadRef(s, db, column.shape, v).entries;
  }

  lemma ReadRefsFit(s: Schema, db: Db, row: Row)
    requires ValidRow(s, row)
    ensures var ts := s.tables[row.table]; var refs := ReadRefs(s, db, ts, row.refs);
            forall c {:trigger refs[c]} :: c in refs ==> IsConfigReference(ts, c) && RefFits(ts.references[c], refs[c])
  {
    var ts := s.tables[row.table];
    var refs := ReadRefs(s, db, ts, row.refs);
    forall c | c in refs
      ensures RefFits(ts.references[c], refs[c])
    {
      ReadRefFits(s, db, ts.references[c], row.refs[c]);
    }
  }

  lemma ReadColumnsFit(s: Schema, db: Db, t: Name, refs: map<Name, RefValue>)
    requires ValidSchema(s) && t in s.tables
    ensures var columns := ReadColumns(s, db, t, refs);
            forall c {:trigger columns[c]} :: c in columns ==> IsChildColumn(s.tables[t], c) && columns[c].entries != map[]
  {
    forall c | c in ReadColumns(s, db, t, refs)
      ensures IsChildColumn(s.tables[t], c) && ReadColumns(s, db, t, refs)[c].entries != map[]
    {
      ColumnIsRead(s, db, t, refs, c);
    }
  }

  lemma ReadingFits(j: Job, p: Path)
    requires IsReading(j) && NodeAt(j.root, p).Some?
    ensures Fits(j, p)
  {
    ReadEverywhere(j, p);
    var u, t := Exist(j, p).value, TableAt(j.schema, p);
    ReadRowIs(j.schema, j.base, t, u);
    assert ValidRow(j.schema, j.base[u]);
    if j.schema.tables[t].indexes != [] {
      IndexLooksUp(j, u);
    }
    ReadConfigFits(j.schema.tables[t], j.base[u].config);
    ReadRefsFit(j.schema, j.base, j.base[u]);
    ReadColumnsFit(j.schema, j.base, t, j.base[u].refs);
    var d, ts := NodeAt(j.root, p).value, j.schema.tables[t];
    assert ts.indexes != [] ==> Last(p).key == IndexOf(ts, d.config);
  }

  lemma ReadingSettled(j: Job, p: Path)
    requires IsReading(j) && NodeAt(j.root, p).Some?
    ensures Settled(j, p)
  {
    ReadEverywhere(j, p);
  }

  lemma ReadingSameIndex(j: Job, p: Path, q: Path)
    requires IsReading(j) && SameIndex(j, p, q)
    ensures p == q
  {
    ReadEverywhere(j, p);
    ReadEverywhere(j, q);
    var u, v := Exist(j, p).value, Exist(j, q).value;
    IndexLooksUp(j, u);
    IndexLooksUp(j, v);
    ReadOnce(j, p, q);
  }

  lemma ReadingSystem(j: Job)
    requires IsReading(j)
    ensures ValidSystem(j)
  {
    forall k | k in j.root[SYSTEM_TABLE].entries
      ensures k == ""
    {
      assert NodeAt(j.root, [Step(SYSTEM_TABLE, k)]).Some?;
      ReadEverywhere(j, [Step(SYSTEM_TABLE, k)]);
    }
  }

  /** What was read can be written. */
  lemma ReadingIsWellPosed(j: Job)
    requires IsReading(j)
    ensures WellPosed(j)
  {
    ReadingSystem(j);
    forall p | NodeAt(j.root, p).Some?
      ensures Fits(j, p)
    {
      ReadingFits(j, p);
    }
    forall p | Live(j, p)
      ensures Settled(j, p)
    {
      ReadingSettled(j, p);
    }
    forall p, q | SameIndex(j, p, q)
      ensures p == q
    {
      ReadingSameIndex(j, p, q);
    }
  }

  lemma SystemKeys(s: Schema, db: Db, k: string)
    requires ValidSchema(s) && k in ReadTable(s, db, SYSTEM_TABLE)
    ensures k == ""
  {
    var v := TopEntryRow(s, db, SYSTEM_TABLE, k);
    assert ValidTable(s, SYSTEM_TABLE);
  }

  lemma RootRoundTrip(root: Root)
    requires SYSTEM_TABLE in root && "" in root[SYSTEM_TABLE].entries
    requires forall k :: k in root[SYSTEM_TABLE].entries ==> k == ""
    ensures RootOf(Config(root[SYSTEM_TABLE].entries[""], root - {SYSTEM_TABLE})) == root
  {
    var system := root[SYSTEM_TABLE];
    assert system.entries == map["" := system.entries[""]];
    assert Children(system.entries) == system;
    var back := RootOf(Config(system.entries[""], root - {SYSTEM_TABLE}));
    assert forall t :: t in root <==> t in back;
  }

  /** The configuration that reading returns, turned back into tables, is all that was read. */
  lemma ReadingIs(j: Job, config: Config)
    requires InOrder(j) && ReadAll(j.schema, j.base) == Some(config) && j.root == RootOf(config)
    ensures IsReading(j)
  {
    var root := ReadRoot(j.schema, j.base);
    forall k | k in root[SYSTEM_TABLE].entries
      ensures k == ""
    {
      SystemKeys(j.schema, j.base, k);
    }
    RootRoundTrip(root);
  }
}
