/** What a completed write leaves behind, and that reading it gives back the configuration. */
module ConfigOutcome {
  import opened Options
  import opened Database
  import opened Containment
  import opened Deletion
  import opened ConfigTree
  import opened ConfigTarget
  import opened ConfigStages
  import opened ConfigTables
  import opened ConfigRefs
  import opened ConfigRead

  /** The fate of a committed row that no location names. */
  ghost predicate Untold(j: Job, gone: set<Uuid>, db: Db, v: Uuid)
    requires v in j.base
  {
    if v in gone then v !in db else v in db && db[v] == j.base[v]
  }

  /** Every location has its final row; the other committed rows are as they were, except for those
      that are `gone`.  `deletes` are the rows that were put up for deletion. */
  ghost predicate Leaves(j: Job, refList: RefList, created: map<Path, Uuid>, deletes: set<Uuid>, gone: set<Uuid>, db: Db)
    requires ValidGraph(GraphOf(j.schema, j.base))
  {
    && (forall q {:trigger FinalAt(j, refList, created, db, q)} :: Live(j, q) ==> FinalAt(j, refList, created, db, q))
    && (forall q {:trigger q in created} :: q in created <==> IsNew(j, q))
    && (forall q {:trigger created[q]} :: q in created ==> created[q] !in j.base)
    && Injective(created)
    && (forall v {:trigger v in db} :: v in db ==> v in j.base || v in created.Values)
    && (forall v {:trigger Untold(j, gone, db, v)} :: v in j.base && !Claimed(j, v) ==> Untold(j, gone, db, v))
    && (forall v {:trigger v in deletes} :: v in deletes <==> Doomed(j, AllSites(j), v))
    && (forall v {:trigger v in deletes} :: v in deletes ==> v in j.base && !Claimed(j, v))
    && (forall q {:trigger Located(j, refList, created, q)} :: Live(j, q) ==> Located(j, refList, created, q))
  }

  /** What a write leaves when all its deletions are carried out. */
  ghost predicate IsOutcome(j: Job, refList: RefList, created: map<Path, Uuid>, deletes: set<Uuid>, db: Db)
    requires ValidGraph(GraphOf(j.schema, j.base))
  {
    Leaves(j, refList, created, deletes, deletes, db)
  }

  /** The index of an indexed location finds its row. */
  ghost predicate Located(j: Job, refList: RefList, created: map<Path, Uuid>, q: Path) {
    && q != []
    && (!IsKeyed(j.schema, q) && q != [Step(SYSTEM_TABLE, "")] ==>
          FindRow(j, refList, TableAt(j.schema, q), Last(q).key) == Some(Place(j, created, q)))
  }

  // ---------- what makes a configuration come back ----------

  /** Rows the reader does not show. */
  ghost predicate Invisible(j: Job, v: Uuid) {
    v in j.base && (Hidden(j.base[v]) || (j.base[v].table in j.schema.tables && !HasConfigCategory(j.schema.tables[j.base[v].table])))
  }

  /** The data names every column that would otherwise not be empty. */
  ghost predicate NamesAll(j: Job, p: Path, c: Name)
    requires TableAt(j.schema, p) in j.schema.tables && c in j.schema.tables[TableAt(j.schema, p)].config
  {
    var ts, d := j.schema.tables[TableAt(j.schema, p)], DataAt(j, p).config;
    if Exist(j, p).None? then c in d || IsEmpty(ts.config[c].initial)
    else
      !ts.config[c].mutable && Exist(j, p).value in j.base && c in j.base[Exist(j, p).value].config ==>
        var was := j.base[Exist(j, p).value].config[c];
        if c in d then was == d[c] else IsEmpty(was)
  }

  /** Whatever stays in a child column without being named anywhere is invisible. */
  ghost predicate LeavesNothing(j: Job, p: Path, c: Name, w: Uuid) {
    w in Targets(OldColumn(j, p, c)) && Kept(GraphOf(j.schema, j.base), w) && !Claimed(j, w) ==> Invisible(j, w)
  }

  /** There is something to write in every place, and a column to write it to. */
  ghost predicate Filled(ts: TableSchema, d: Data) {
    && HasConfigCategory(ts)
    && d != EMPTY_DATA
    && (forall c {:trigger d.config[c]} :: c in d.config ==> c in ts.config && !IsEmpty(d.config[c]))
    && (forall c {:trigger d.refs[c]} :: c in d.refs ==> IsConfigReference(ts, c) && IndexesIn(d.refs[c]) != {})
    && (forall c {:trigger d.children[c]} :: c in d.children ==> d.children[c].entries != map[])
  }

  ghost predicate Faithful(j: Job, p: Path)
    requires TableAt(j.schema, p) in j.schema.tables
  {
    var ts := j.schema.tables[TableAt(j.schema, p)];
    && Filled(ts, DataAt(j, p))
    && (forall c {:trigger NamesAll(j, p, c)} :: c in ts.config ==> NamesAll(j, p, c))
    && (forall c {:trigger IsConfigReference(ts, c)} :: IsConfigReference(ts, c) ==> ts.references[c].mutable)
    && (Exist(j, p).Some? && Exist(j, p).value in j.base ==> !Hidden(j.base[Exist(j, p).value]))
    && (forall c, w {:trigger LeavesNothing(j, p, c, w)} :: Exist(j, p).Some? && c in ChildColumns(j, p) ==> LeavesNothing(j, p, c, w))
  }

  /** The rows of a top-level table are named, invisible, or go with their table. */
  ghost predicate TopAccounted(j: Job, u: Uuid)
    requires u in j.base && ValidGraph(GraphOf(j.schema, j.base))
  {
    var t := j.base[u].table;
    || Invisible(j, u)
    || (t in j.root && IndexAt(j.schema, j.base, u) in j.root[t].entries)
    || (t !in j.root && t in j.schema.tables && DeleteCheck(j.schema, t) && Removable(GraphOf(j.schema, j.base), u))
  }

  /** The row at a location is named by this index. */
  ghost predicate Names(j: Job, q: Path, t: Name, i: string) {
    NodeAt(j.root, q).Some? && q != [] && TableAt(j.schema, q) == t && Last(q).key == i
  }

  /** References lead to rows of the configuration. */
  ghost predicate RefClosed(j: Job, p: Path, c: Name, i: string)
    requires TableAt(j.schema, p) in j.schema.tables && c in j.schema.tables[TableAt(j.schema, p)].references
  {
    exists q :: Names(j, q, j.schema.tables[TableAt(j.schema, p)].references[c].refTable, i)
  }

  ghost predicate RefsClosed(j: Job) {
    forall p, c, i {:trigger RefClosed(j, p, c, i)} ::
      && NodeAt(j.root, p).Some?
      && TableAt(j.schema, p) in j.schema.tables
      && c in j.schema.tables[TableAt(j.schema, p)].references
      && c in DataAt(j, p).refs
      && i in IndexesIn(DataAt(j, p).refs[c])
      ==> RefClosed(j, p, c, i)
  }

  ghost predicate Complete(j: Job)
    requires ValidGraph(GraphOf(j.schema, j.base))
  {
    && AllMade(j)
    && RefsClosed(j)
    && (forall p {:trigger Faithful(j, p)} :: NodeAt(j.root, p).Some? && TableAt(j.schema, p) in j.schema.tables ==> Faithful(j, p))
    && (forall u {:trigger TopAccounted(j, u)} :: u in j.base && IsTopLevel(j.schema, j.base[u].table) ==> TopAccounted(j, u))
    && (forall t {:trigger j.root[t]} :: t in j.root ==> j.root[t].entries != map[])
  }

  /** No row stays unnamed in a key/value column beside rows that are named. */
  ghost predicate NoneBeside(j: Job, p: Path, c: Name) {
    OldColumn(j, p, c).Map? && KeysAt(j, p, c) != {} ==>
      forall k :: k in OldColumn(j, p, c).entries && k !in KeysAt(j, p, c) ==>
        !Kept(GraphOf(j.schema, j.base), OldColumn(j, p, c).entries[k])
  }

  ghost predicate KeptApart(j: Job) {
    forall p, c {:trigger NoneBeside(j, p, c)} :: Live(j, p) && c in ChildColumns(j, p) ==> NoneBeside(j, p, c)
  }

  /** A complete configuration has been written. */
  ghost predicate Written(j: Job, refList: RefList, created: map<Path, Uuid>, deletes: set<Uuid>, db: Db) {
    && WellPosed(j)
    && ValidGraph(GraphOf(j.schema, j.base))
    && Complete(j)
    && IsOutcome(j, refList, created, deletes, db)
  }

  // ---------- configuration columns read back ----------

  lemma ConfigReadsBack(ts: TableSchema, config: map<Name, Value>, data: map<Name, Value>)
    requires config.Keys == ts.config.Keys && data.Keys <= ts.config.Keys
    requires forall c :: c in ts.config ==> if c in data then config[c] == data[c] && !IsEmpty(data[c]) else IsEmpty(config[c])
    ensures ReadConfig(ts, config) == data
  {
  }

  lemma EmptyLikeIsEmpty(v: Value)
    ensures IsEmpty(EmptyLike(v))
    ensures EmptyLike(v) == v <==> IsEmpty(v)
  {
  }

  lemma FinalConfig(j: Job, refList: RefList, created: map<Path, Uuid>, p: Path)
    requires WellPosed(j) && Live(j, p) && TableAt(j.schema, p) in j.schema.tables && Faithful(j, p)
    ensures ReadConfig(j.schema.tables[TableAt(j.schema, p)], FinalRow(j, refList, created, p).config) == DataAt(j, p).config
  {
    var t := TableAt(j.schema, p);
    var ts, d := j.schema.tables[t], DataAt(j, p).config;
    assert Fits(j, p);
    if Exist(j, p).Some? {
      OldStartRow(j, p, Exist(j, p).value);
      assert ValidRow(j.schema, j.base[Exist(j, p).value]);
    } else {
      NewStartRow(j, p);
    }
    forall c | c in ts.config
      ensures var v := StartRow(j, p).config[c];
              if c in d then v == d[c] && !IsEmpty(d[c]) else IsEmpty(v)
    {
      assert NamesAll(j, p, c);
      if Exist(j, p).Some? {
        EmptyLikeIsEmpty(j.base[Exist(j, p).value].config[c]);
      }
      if c in d {
        var v := d[c];
      }
    }
    ConfigReadsBack(ts, StartRow(j, p).config, d);
  }

  // ---------- what is where ----------

  lemma FinalShape(j: Job, refList: RefList, created: map<Path, Uuid>, p: Path)
    requires WellPosed(j) && Live(j, p)
    ensures TableAt(j.schema, p) in j.schema.tables
    ensures FinalRow(j, refList, created, p).table == TableAt(j.schema, p)
    ensures FinalRow(j, refList, created, p).refs.Keys == j.schema.tables[TableAt(j.schema, p)].references.Keys
    ensures FinalRow(j, refList, created, p).config == StartRow(j, p).config
    ensures Exist(j, p).Some? ==> Exist(j, p).value in j.base
                                  && FinalRow(j, refList, created, p).internal == j.base[Exist(j, p).value].internal
                                  && FinalRow(j, refList, created, p).table == j.base[Exist(j, p).value].table
    ensures Exist(j, p).None? ==> !FinalRow(j, refList, created, p).internal
  {
    if Exist(j, p).Some? {
      OldStartRow(j, p, Exist(j, p).value);
    } else {
      NewStartRow(j, p);
    }
  }

  lemma FinalIndexable(j: Job, refList: RefList, created: map<Path, Uuid>, p: Path)
    requires WellPosed(j) && Live(j, p) && TableAt(j.schema, p) in j.schema.tables && Faithful(j, p)
    requires j.schema.tables[TableAt(j.schema, p)].indexes != []
    ensures var ts := j.schema.tables[TableAt(j.schema, p)];
            && Indexable(ts, FinalRow(j, refList, created, p).config)
            && IndexOf(ts, FinalRow(j, refList, created, p).config) == Last(p).key
  {
    var ts := j.schema.tables[TableAt(j.schema, p)];
    var config, d := StartRow(j, p).config, DataAt(j, p).config;
    assert Fits(j, p);
    FinalShape(j, refList, created, p);
    FinalConfig(j, refList, created, p);
    KeyFromReading(ts, config, d);
  }

  lemma KeyFromReading(ts: TableSchema, config: map<Name, Value>, data: map<Name, Value>)
    requires ReadConfig(ts, config) == data && Indexable(ts, data)
    ensures Indexable(ts, config) && KeyOf(ts, config) == KeyOf(ts, data)
  {
    forall i | 0 <= i < |ts.indexes|
      ensures ts.indexes[i] in config && config[ts.indexes[i]] == data[ts.indexes[i]]
    {
      assert ts.indexes[i] in ReadConfig(ts, config);
    }
  }

  /** After a write every indexed location is listed under its own key. */
  lemma IndexReadsBack(j: Job, refList: RefList, created: map<Path, Uuid>, db: Db, p: Path)
    requires WellPosed(j) && Live(j, p) && TableAt(j.schema, p) in j.schema.tables && Faithful(j, p)
    requires FinalAt(j, refList, created, db, p)
    ensures j.schema.tables[TableAt(j.schema, p)].indexes != [] ==> IndexAt(j.schema, db, Place(j, created, p)) == Last(p).key
    ensures j.schema.tables[TableAt(j.schema, p)].indexes == [] ==> IndexAt(j.schema, db, Place(j, created, p)) == ""
  {
    FinalShape(j, refList, created, p);
    if j.schema.tables[TableAt(j.schema, p)].indexes != [] {
      FinalIndexable(j, refList, created, p);
    }
  }

  // ---------- references read back ----------

  lemma RefReadsBack(j: Job, refList: RefList, db: Db, t: Name, shape: Shape, d: RefData)
    requires forall i :: i in IndexesIn(d) ==> IndexAt(j.schema, db, Found(j, refList, t, i)) == i
    requires match d case Index(_) => shape == One case IndexSet(_) => shape == Many case IndexMap(_) => shape == Keyed
    ensures ReadRef(j.schema, db, shape, RefTarget(j, refList, t, d)) == d
  {
    match d
    case Index(i) =>
    case IndexSet(indexes) =>
      var rows := set i | i in indexes :: Found(j, refList, t, i);
      var back := set v | v in rows :: IndexAt(j.schema, db, v);
      forall i | i in indexes
        ensures i in back
      {
        assert Found(j, refList, t, i) in rows;
      }
      assert back == indexes;
    case IndexMap(entries) =>
      forall k | k in entries
        ensures entries[k] in IndexesIn(d)
      {
      }
      assert (map k | k in entries :: entries[k]) == entries;
  }

  lemma TargetsOfData(j: Job, refList: RefList, t: Name, column: RefColumn, d: RefData)
    requires RefFits(column, d) && IndexesIn(d) != {}
    ensures Targets(RefTarget(j, refList, t, d)) != {}
  {
    match d
    case Index(_) =>
    case IndexSet(indexes) =>
      var i :| i in indexes;
      assert Found(j, refList, t, i) in Targets(RefTarget(j, refList, t, d));
    case IndexMap(entries) =>
      var i :| i in entries.Values;
      var k :| k in entries && entries[k] == i;
      var target := RefTarget(j, refList, t, d).entries;
      assert target[k] in target.Values;
  }
}
