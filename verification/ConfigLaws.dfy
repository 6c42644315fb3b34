/** The two laws of declarative configuration, of the code that writes and the code that reads: what is
    written reads back, and writing back what was read changes nothing. */
module ConfigLaws {
  import opened Options
  import opened Database
  import opened Validation
  import opened Containment
  import opened Deletion
  import opened ConfigTree
  import opened ConfigTarget
  import opened ConfigDropped
  import opened ConfigStages
  import opened ConfigRefs
  import opened ConfigRead
  import opened ConfigOutcome
  import opened ConfigTheorems
  import opened ConfigOperations
  import opened ConfigReading
  import opened ConfigReader
  import opened ConfigSources
  import opened ConfigSession
  import opened ConfigUnchanged
  import opened ConfigOrders
  import opened ConfigIdle

  // ---------- a written replica is tidy ----------

  lemma ListedIsDistinct(s: Schema, db: Db, t: Name, rows: set<Uuid>, entries: map<string, Data>, place: map<string, Uuid>)
    requires ValidSchema(s) && Lists(s, db, t, rows, entries, place)
    ensures DistinctIndexes(s, db, t, rows)
  {
    forall v, w | v in rows && w in rows && ReadRow(s, db, t, v).Some? && ReadRow(s, db, t, w).Some?
                  && IndexAt(s, db, v) == IndexAt(s, db, w)
      ensures v == w
    {
      var k :| k in place && place[k] == v;
      var l :| l in place && place[l] == w;
    }
  }

  lemma AllEntriesRead(j: Job, refList: RefList, created: map<Path, Uuid>, deletes: set<Uuid>, db: Db, p: Path, c: Name)
    requires Written(j, refList, created, deletes, db) && Live(j, p) && c in ChildColumns(j, p)
    ensures forall k {:trigger EntryReads(j, created, db, p, c, k)} :: k in EntriesAt(j, p, c) ==> EntryReads(j, created, db, p, c, k)
  {
    forall k | k in EntriesAt(j, p, c)
      ensures EntryReads(j, created, db, p, c, k)
    {
      ChildRow(j, created, p, c, k);
      RowReadsBack(j, refList, created, deletes, db, p + [Step(c, k)], EntriesAt(j, p, c)[k]);
    }
  }

  /** Named rows of a key/value column show, and beside them there are no others. */
  lemma KeyedColumnTidy(j: Job, refList: RefList, created: map<Path, Uuid>, deletes: set<Uuid>, db: Db, p: Path, c: Name, ct: Name)
    requires Written(j, refList, created, deletes, db) && Live(j, p) && c in ChildColumns(j, p) && OldColumn(j, p, c).Map?
    requires TableAt(j.schema, p) in j.schema.tables && ct == j.schema.tables[TableAt(j.schema, p)].references[c].refTable
    requires NoneBeside(j, p, c)
    requires NewChildren(j, created, p, c).Keys == EntriesAt(j, p, c).Keys
    requires forall k :: k in EntriesAt(j, p, c) ==> ReadRow(j.schema, db, ct, NewChildren(j, created, p, c)[k]) == Some(EntriesAt(j, p, c)[k])
    ensures AllOrNone(j.schema, db, ct, TargetColumn(j, created, p, c).entries)
  {
    var all, named := TargetColumn(j, created, p, c).entries, EntriesAt(j, p, c);
    forall k | k in all
      ensures if named != map[] then k in named && ReadRow(j.schema, db, ct, all[k]).Some? else ReadRow(j.schema, db, ct, all[k]).None?
    {
      if k !in KeysAt(j, p, c) {
        LeftoverKey(j, created, p, c, k);
        LeftoverEntry(j, refList, created, deletes, db, p, c, k, ct);
      }
    }
  }

  lemma ColumnTidy(j: Job, refList: RefList, created: map<Path, Uuid>, deletes: set<Uuid>, db: Db, p: Path, c: Name, ct: Name, keyed: bool)
    requires Written(j, refList, created, deletes, db) && (keyed ==> KeptApart(j)) && Live(j, p) && c in ChildColumns(j, p)
    requires TableAt(j.schema, p) in j.schema.tables && ct == j.schema.tables[TableAt(j.schema, p)].references[c].refTable
    ensures TidyColumn(j.schema, db, ct, TargetColumn(j, created, p, c), keyed)
  {
    AllEntriesRead(j, refList, created, deletes, db, p, c);
    ConfigTheorems.EntryRows(j, created, db, p, c);
    assert keyed ==> NoneBeside(j, p, c);
    if OldColumn(j, p, c).Rows? {
      ListedRows(j, refList, created, deletes, db, p, c);
      ListedIsDistinct(j.schema, db, ct, TargetColumn(j, created, p, c).rows, EntriesAt(j, p, c), NewChildren(j, created, p, c));
    } else if keyed {
      KeyedColumnTidy(j, refList, created, deletes, db, p, c, ct);
    }
  }

  /** A row in a written child column is that of an entry, or not gone into. */
  lemma ColumnRowIs(j: Job, refList: RefList, created: map<Path, Uuid>, deletes: set<Uuid>, db: Db, p: Path, c: Name, ct: Name, v: Uuid)
    requires Written(j, refList, created, deletes, db) && Live(j, p) && c in ChildColumns(j, p)
    requires v in Targets(TargetColumn(j, created, p, c))
    ensures (exists k :: ChildEntry(j, created, p, c, k, v)) || !Entered(j.schema, db, ct, v)
  {
    if v in NewChildren(j, created, p, c).Values {
      var k :| k in NewChildren(j, created, p, c) && NewChildren(j, created, p, c)[k] == v;
      assert ChildEntry(j, created, p, c, k, v);
    } else if OldColumn(j, p, c).Rows? {
      LeftoverRow(j, refList, created, deletes, db, p, c, v, ct);
    } else {
      var all := TargetColumn(j, created, p, c).entries;
      var k :| k in all && all[k] == v;
      if k in KeysAt(j, p, c) {
        EntryHasRow(j, created, p, c, k);
      } else {
        LeftoverEntry(j, refList, created, deletes, db, p, c, k, ct);
      }
    }
  }

  ghost predicate ChildEntry(j: Job, created: map<Path, Uuid>, p: Path, c: Name, k: string, v: Uuid) {
    k in EntriesAt(j, p, c) && v == Place(j, created, p + [Step(c, k)])
  }

  lemma EntryHasRow(j: Job, created: map<Path, Uuid>, p: Path, c: Name, k: string)
    requires WellPosed(j) && AllMade(j) && Live(j, p) && k in KeysAt(j, p, c) && OldColumn(j, p, c).Map?
    ensures k in TargetColumn(j, created, p, c).entries
    ensures ChildEntry(j, created, p, c, k, TargetColumn(j, created, p, c).entries[k])
  {
    ChildRow(j, created, p, c, k);
  }

  /** Every location of a complete configuration is read without loss, at any depth. */
  lemma {:induction false} LocationTidy(j: Job, refList: RefList, created: map<Path, Uuid>, deletes: set<Uuid>, db: Db, p: Path, d: Data, keyed: bool)
    requires Written(j, refList, created, deletes, db) && (keyed ==> KeptApart(j)) && Live(j, p) && d == DataAt(j, p)
    ensures TidyRow(j.schema, db, TableAt(j.schema, p), Place(j, created, p), keyed)
    decreases d
  {
    var t, u := TableAt(j.schema, p), Place(j, created, p);
    assert FinalAt(j, refList, created, db, p);
    FinalShape(j, refList, created, p);
    forall c | IsChildColumn(j.schema.tables[t], c)
      ensures c in db[u].refs && TidyBelow(j.schema, db, t, c, db[u].refs[c], keyed)
    {
      FinalChildColumn(j, refList, created, p, c);
      var ct := j.schema.tables[t].references[c].refTable;
      ColumnTidy(j, refList, created, deletes, db, p, c, ct, keyed);
      forall v | v in Targets(TargetColumn(j, created, p, c))
        ensures TidyRow(j.schema, db, ct, v, keyed)
      {
        ColumnRowIs(j, refList, created, deletes, db, p, c, ct, v);
        if Entered(j.schema, db, ct, v) {
          var k :| ChildEntry(j, created, p, c, k, v);
          ChildRow(j, created, p, c, k);
          LocationTidy(j, refList, created, deletes, db, p + [Step(c, k)], d.children[c].entries[k], keyed);
        }
      }
    }
  }

  lemma TableTidy(j: Job, refList: RefList, created: map<Path, Uuid>, deletes: set<Uuid>, db: Db, t: Name, keyed: bool)
    requires Written(j, refList, created, deletes, db) && (keyed ==> KeptApart(j)) && IsTopLevel(j.schema, t)
    ensures TidyTable(j.schema, db, t, keyed)
  {
    ListedTable(j, refList, created, deletes, db, t);
    if t in j.root {
      ListedIsDistinct(j.schema, db, t, RowsIn(db, t), j.root[t].entries, TopPlaces(j, created, t));
    } else {
      ListedIsDistinct(j.schema, db, t, RowsIn(db, t), map[], map[]);
    }
    forall v | v in RowsIn(db, t)
      ensures TidyRow(j.schema, db, t, v, keyed)
    {
      TopRowIs(j, refList, created, deletes, db, t, v);
      if Entered(j.schema, db, t, v) {
        var k :| TopEntry(j, created, t, k, v);
        EntryRow(j, t, k);
        LocationTidy(j, refList, created, deletes, db, [Step(t, k)], j.root[t].entries[k], keyed);
      }
    }
  }

  /** What a complete configuration leaves is read without loss if it keeps named and unnamed rows of
      key/value columns apart; list columns and tables always are. */
  lemma WrittenIsTidy(j: Job, refList: RefList, created: map<Path, Uuid>, deletes: set<Uuid>, db: Db, keyed: bool)
    requires Written(j, refList, created, deletes, db) && (keyed ==> KeptApart(j))
    ensures Tidy(j.schema, db, keyed)
  {
    forall t | IsTopLevel(j.schema, t)
      ensures TidyTable(j.schema, db, t, keyed)
    {
      TableTidy(j, refList, created, deletes, db, t, keyed);
    }
  }

  // ---------- what the loops make of it ----------

  /** Whatever the order of the dictionaries, the code reads a location as the data that was written to it. */
  lemma LocationReadsBack(j: Job, refList: RefList, created: map<Path, Uuid>, deletes: set<Uuid>, db: Db, p: Path, data: Option<Data>)
    requires Written(j, refList, created, deletes, db) && KeptApart(j) && Live(j, p)
    requires MayRead(j.schema, db, TableAt(j.schema, p), Place(j, created, p), data)
    ensures data == Some(DataAt(j, p))
  {
    LocationTidy(j, refList, created, deletes, db, p, DataAt(j, p), true);
    RowIsRead(j.schema, db, TableAt(j.schema, p), Place(j, created, p), data);
    RowReadsBack(j, refList, created, deletes, db, p, DataAt(j, p));
  }

  /** A child column of a location, as the entries of its data. */
  lemma ChildrenReadBack(j: Job, refList: RefList, created: map<Path, Uuid>, deletes: set<Uuid>, db: Db, p: Path, c: Name,
                         children: map<string, Data>)
    requires Written(j, refList, created, deletes, db) && KeptApart(j) && Live(j, p) && c in ChildColumns(j, p)
    requires TableAt(j.schema, p) in j.schema.tables
    requires MayReadColumn(j.schema, db, TableAt(j.schema, p), c, TargetColumn(j, created, p, c), children)
    ensures children == EntriesAt(j, p, c)
  {
    var t := TableAt(j.schema, p);
    var ct := j.schema.tables[t].references[c].refTable;
    ColumnTidy(j, refList, created, deletes, db, p, c, ct, true);
    forall v | v in Targets(TargetColumn(j, created, p, c))
      ensures TidyRow(j.schema, db, ct, v, true)
    {
      ColumnRowIs(j, refList, created, deletes, db, p, c, ct, v);
      if Entered(j.schema, db, ct, v) {
        var k :| ChildEntry(j, created, p, c, k, v);
        ChildRow(j, created, p, c, k);
        LocationTidy(j, refList, created, deletes, db, p + [Step(c, k)], DataAt(j, p + [Step(c, k)]), true);
      }
    }
    ColumnIsReadAs(j.schema, db, t, c, TargetColumn(j, created, p, c), children);
    AllEntriesRead(j, refList, created, deletes, db, p, c);
    ColumnReadsBack(j, refList, created, deletes, db, p, c);
  }

  /** A top-level table, as its entries, or as nothing when the configuration leaves it out. */
  lemma EntriesReadBack(j: Job, refList: RefList, created: map<Path, Uuid>, deletes: set<Uuid>, db: Db, t: Name, entries: map<string, Data>)
    requires Written(j, refList, created, deletes, db) && KeptApart(j) && IsTopLevel(j.schema, t)
    requires MayReadRows(j.schema, db, t, RowsIn(db, t), entries)
    ensures entries == if t in j.root then j.root[t].entries else map[]
  {
    TableTidy(j, refList, created, deletes, db, t, true);
    RowsAreRead(j.schema, db, t, RowsIn(db, t), entries);
    TableReadsBack(j, refList, created, deletes, db, t);
  }

  // ---------- a written replica can be read ----------

  /** A complete configuration has been written, and of the deletions those of `gone` have been carried out. */
  ghost predicate Remains(j: Job, refList: RefList, created: map<Path, Uuid>, deletes: set<Uuid>, gone: set<Uuid>, db: Db) {
    && WellPosed(j)
    && ValidGraph(GraphOf(j.schema, j.base))
    && Complete(j)
    && Leaves(j, refList, created, deletes, gone, db)
  }

  /** Rows do not change their table. */
  lemma CommittedTable(j: Job, refList: RefList, created: map<Path, Uuid>, deletes: set<Uuid>, gone: set<Uuid>, db: Db, v: Uuid)
    requires Remains(j, refList, created, deletes, gone, db) && v in j.base && v in db
    ensures db[v].table == j.base[v].table
  {
    if Claimed(j, v) {
      var q :| IsOld(j, q, v);
      assert FinalAt(j, refList, created, db, q);
      FinalShape(j, refList, created, q);
    } else {
      assert Untold(j, gone, db, v);
    }
  }

  lemma PlaceTable(j: Job, refList: RefList, created: map<Path, Uuid>, deletes: set<Uuid>, gone: set<Uuid>, db: Db, q: Path)
    requires Remains(j, refList, created, deletes, gone, db) && Live(j, q)
    ensures Place(j, created, q) in db && db[Place(j, created, q)].table == TableAt(j.schema, q)
  {
    assert FinalAt(j, refList, created, db, q);
    FinalShape(j, refList, created, q);
  }

  /** The references that have been filled in lead to rows of the right table. */
  lemma ReferredTable(j: Job, refList: RefList, created: map<Path, Uuid>, deletes: set<Uuid>, gone: set<Uuid>, db: Db, p: Path, c: Name, v: Uuid)
    requires Remains(j, refList, created, deletes, gone, db) && Live(j, p) && c in WrittenColumns(j, p)
    requires v in Targets(ColumnTarget(j, refList, p, c))
    ensures v in db && TableAt(j.schema, p) in j.schema.tables && c in j.schema.tables[TableAt(j.schema, p)].references
    ensures db[v].table == j.schema.tables[TableAt(j.schema, p)].references[c].refTable
  {
    var t := j.schema.tables[TableAt(j.schema, p)].references[c].refTable;
    var i := ReferredIndex(j, refList, p, c, v);
    FoundPlace(j, refList, created, deletes, gone, db, p, c, i);
    var q :| Names(j, q, t, i) && Live(j, q) && Found(j, refList, t, i) == Place(j, created, q);
    PlaceTable(j, refList, created, deletes, gone, db, q);
  }

  lemma ReferredIndex(j: Job, refList: RefList, p: Path, c: Name, v: Uuid) returns (i: string)
    requires c in WrittenColumns(j, p) && v in Targets(ColumnTarget(j, refList, p, c))
    ensures c in DataAt(j, p).refs && i in IndexesIn(DataAt(j, p).refs[c])
    ensures v == Found(j, refList, j.schema.tables[TableAt(j.schema, p)].references[c].refTable, i)
  {
    var t := j.schema.tables[TableAt(j.schema, p)].references[c].refTable;
    assert c in DataAt(j, p).refs;
    match DataAt(j, p).refs[c]
    case Index(k) => i := k;
    case IndexSet(indexes) => i :| i in indexes && v == Found(j, refList, t, i);
    case IndexMap(entries) =>
      var target := RefTarget(j, refList, t, IndexMap(entries)).entries;
      var k :| k in target && target[k] == v;
      i := entries[k];
  }

  lemma FoundPlace(j: Job, refList: RefList, created: map<Path, Uuid>, deletes: set<Uuid>, gone: set<Uuid>, db: Db, p: Path, c: Name, i: string)
    requires Remains(j, refList, created, deletes, gone, db) && Live(j, p) && c in WrittenColumns(j, p)
    requires c in DataAt(j, p).refs && i in IndexesIn(DataAt(j, p).refs[c])
    ensures var t := j.schema.tables[TableAt(j.schema, p)].references[c].refTable;
            exists q :: Names(j, q, t, i) && Live(j, q) && Found(j, refList, t, i) == Place(j, created, q)
  {
    var t := j.schema.tables[TableAt(j.schema, p)].references[c].refTable;
    assert ValidColumn(j.schema, TableAt(j.schema, p), c);
    assert RefClosed(j, p, c, i);
    var q :| Names(j, q, t, i);
    assert Live(j, q);
    assert Located(j, refList, created, q);
    if |q| == 1 {
      TopTable(j, q);
    } else {
      KeyedTable(j, q);
    }
  }

  lemma ChildTable(j: Job, refList: RefList, created: map<Path, Uuid>, deletes: set<Uuid>, gone: set<Uuid>, db: Db, p: Path, c: Name, v: Uuid)
    requires Remains(j, refList, created, deletes, gone, db) && Live(j, p) && c in ChildColumns(j, p)
    requires v in Targets(TargetColumn(j, created, p, c)) && v in db
    ensures TableAt(j.schema, p) in j.schema.tables && c in j.schema.tables[TableAt(j.schema, p)].references
    ensures db[v].table == j.schema.tables[TableAt(j.schema, p)].references[c].refTable
  {
    if v in NewChildren(j, created, p, c).Values {
      var k :| k in NewChildren(j, created, p, c) && NewChildren(j, created, p, c)[k] == v;
      ChildRow(j, created, p, c, k);
      PlaceTable(j, refList, created, deletes, gone, db, p + [Step(c, k)]);
    } else {
      StartColumn(j, p, c);
      OldChild(j, created, p, c, v);
      var u := Exist(j, p).value;
      assert IsOld(j, p, u);
      ColumnOf(j, p, c, u);
      KidIsLower(j.schema, j.base, u, c, v);
      CommittedTable(j, refList, created, deletes, gone, db, v);
    }
  }

  lemma OldChild(j: Job, created: map<Path, Uuid>, p: Path, c: Name, v: Uuid)
    requires v in Targets(TargetColumn(j, created, p, c)) && v !in NewChildren(j, created, p, c).Values
    ensures v in Targets(OldColumn(j, p, c))
  {
    if OldColumn(j, p, c).Map? {
      var all := TargetColumn(j, created, p, c).entries;
      var k :| k in all && all[k] == v;
      assert k !in NewChildren(j, created, p, c);
      assert OldColumn(j, p, c).entries[k] in OldColumn(j, p, c).entries.Values;
    }
  }

  /** A column that is neither written nor a child column stays what it was. */
  lemma KeptTable(j: Job, refList: RefList, created: map<Path, Uuid>, deletes: set<Uuid>, gone: set<Uuid>, db: Db, p: Path, c: Name, v: Uuid)
    requires Remains(j, refList, created, deletes, gone, db) && Live(j, p)
    requires c in StartRow(j, p).refs && v in Targets(StartRow(j, p).refs[c]) && v in db
    ensures TableAt(j.schema, p) in j.schema.tables && c in j.schema.tables[TableAt(j.schema, p)].references
    ensures db[v].table == j.schema.tables[TableAt(j.schema, p)].references[c].refTable
  {
    if Exist(j, p).Some? {
      var u := Exist(j, p).value;
      OldStartRow(j, p, u);
      assert ValidTarget(j.schema, j.base, u, c, v);
      CommittedTable(j, refList, created, deletes, gone, db, v);
    } else {
      NewStartRow(j, p);
    }
  }

  lemma FinalTargets(j: Job, refList: RefList, created: map<Path, Uuid>, deletes: set<Uuid>, gone: set<Uuid>, db: Db, p: Path, c: Name, v: Uuid)
    requires Remains(j, refList, created, deletes, gone, db) && Live(j, p)
    requires c in FinalRow(j, refList, created, p).refs && v in Targets(FinalRow(j, refList, created, p).refs[c]) && v in db
    ensures Place(j, created, p) in db && RightTable(j.schema, db, Place(j, created, p), c, v)
  {
    FinalShape(j, refList, created, p);
    PlaceTable(j, refList, created, deletes, gone, db, p);
    if c in WrittenColumns(j, p) {
      ReferredTable(j, refList, created, deletes, gone, db, p, c, v);
    } else if c in ChildColumns(j, p) {
      ChildTable(j, refList, created, deletes, gone, db, p, c, v);
    } else {
      KeptTable(j, refList, created, deletes, gone, db, p, c, v);
    }
  }

  ghost predicate RightShape(column: RefColumn, v: RefValue) {
    (v.Map? <==> column.shape == Keyed) && (column.shape == One ==> |Targets(v)| <= 1)
  }

  lemma ReferredShape(j: Job, refList: RefList, p: Path, c: Name)
    requires WellPosed(j) && Live(j, p) && c in WrittenColumns(j, p)
    ensures TableAt(j.schema, p) in j.schema.tables && c in j.schema.tables[TableAt(j.schema, p)].references
    ensures RightShape(j.schema.tables[TableAt(j.schema, p)].references[c], ColumnTarget(j, refList, p, c))
  {
    assert Fits(j, p);
    if c in DataAt(j, p).refs {
      var d := DataAt(j, p).refs[c];
    }
  }

  lemma ChildShape(j: Job, created: map<Path, Uuid>, p: Path, c: Name)
    requires WellPosed(j) && Live(j, p) && c in ChildColumns(j, p)
    ensures TableAt(j.schema, p) in j.schema.tables && c in j.schema.tables[TableAt(j.schema, p)].references
    ensures RightShape(j.schema.tables[TableAt(j.schema, p)].references[c], TargetColumn(j, created, p, c))
  {
    assert ValidColumn(j.schema, TableAt(j.schema, p), c);
    OldColumnShape(j, p, c);
  }

  lemma StartIsValid(j: Job, p: Path)
    requires WellPosed(j) && Live(j, p)
    ensures ValidRow(j.schema, StartRow(j, p)) && StartRow(j, p).table == TableAt(j.schema, p)
  {
    if Exist(j, p).Some? {
      OldStartRow(j, p, Exist(j, p).value);
    } else {
      NewStartRow(j, p);
    }
  }

  lemma FinalColumnShape(j: Job, refList: RefList, created: map<Path, Uuid>, p: Path, c: Name)
    requires WellPosed(j) && Live(j, p) && c in FinalRow(j, refList, created, p).refs
    ensures TableAt(j.schema, p) in j.schema.tables && c in j.schema.tables[TableAt(j.schema, p)].references
    ensures RightShape(j.schema.tables[TableAt(j.schema, p)].references[c], FinalRow(j, refList, created, p).refs[c])
  {
    StartIsValid(j, p);
    if c in WrittenColumns(j, p) {
      ReferredShape(j, refList, p, c);
    } else if c in ChildColumns(j, p) {
      ChildShape(j, created, p, c);
    } else {
      var was := StartRow(j, p).refs[c];
    }
  }

  lemma FinalIsValid(j: Job, refList: RefList, created: map<Path, Uuid>, p: Path)
    requires WellPosed(j) && Live(j, p)
    ensures ValidRow(j.schema, FinalRow(j, refList, created, p))
  {
    StartIsValid(j, p);
    var row := FinalRow(j, refList, created, p);
    forall c | c in row.refs
      ensures RightShape(j.schema.tables[row.table].references[c], row.refs[c])
    {
      FinalColumnShape(j, refList, created, p, c);
    }
  }

  /** Every row of a written replica is that of a location, or a committed one that was not touched. */
  lemma RowOrigin(j: Job, refList: RefList, created: map<Path, Uuid>, deletes: set<Uuid>, gone: set<Uuid>, db: Db, u: Uuid)
    requires Remains(j, refList, created, deletes, gone, db) && u in db
    ensures (exists p :: Stands(j, created, p, u)) || (u in j.base && db[u] == j.base[u])
  {
    if u in created.Values {
      var q :| q in created && created[q] == u;
      assert Stands(j, created, q, u);
    } else if Claimed(j, u) {
      var q :| IsOld(j, q, u);
      assert Stands(j, created, q, u);
    } else {
      assert Untold(j, gone, db, u);
    }
  }

  ghost predicate Stands(j: Job, created: map<Path, Uuid>, p: Path, u: Uuid) {
    Live(j, p) && Place(j, created, p) == u
  }

  lemma RemainingRow(j: Job, refList: RefList, created: map<Path, Uuid>, deletes: set<Uuid>, gone: set<Uuid>, db: Db, u: Uuid)
    requires Remains(j, refList, created, deletes, gone, db) && u in db
    ensures ValidRow(j.schema, db[u])
    ensures forall c, v :: c in db[u].refs && v in Targets(db[u].refs[c]) && v in db ==> RightTable(j.schema, db, u, c, v)
  {
    RowOrigin(j, refList, created, deletes, gone, db, u);
    if p :| Stands(j, created, p, u) {
      assert FinalAt(j, refList, created, db, p);
      FinalIsValid(j, refList, created, p);
      forall c, v | c in db[u].refs && v in Targets(db[u].refs[c]) && v in db
        ensures RightTable(j.schema, db, u, c, v)
      {
        FinalTargets(j, refList, created, deletes, gone, db, p, c, v);
      }
    } else {
      assert ValidRow(j.schema, j.base[u]);
      forall c, v | c in db[u].refs && v in Targets(db[u].refs[c]) && v in db
        ensures RightTable(j.schema, db, u, c, v)
      {
        assert ValidTarget(j.schema, j.base, u, c, v);
        CommittedTable(j, refList, created, deletes, gone, db, v);
      }
    }
  }

  /** Every row is a row of its table, and every reference that does not dangle leads to one of the right
      table, whichever of the planned deletions have been carried out. */
  lemma RemainsReadable(j: Job, refList: RefList, created: map<Path, Uuid>, deletes: set<Uuid>, gone: set<Uuid>, db: Db)
    requires Remains(j, refList, created, deletes, gone, db)
    ensures Readable(j.schema, db)
  {
    forall u | u in db
      ensures ValidRow(j.schema, db[u])
    {
      RemainingRow(j, refList, created, deletes, gone, db, u);
    }
    forall u, c, v | u in db && v in db && c in db[u].refs && v in Targets(db[u].refs[c])
      ensures RightTable(j.schema, db, u, c, v)
    {
      RemainingRow(j, refList, created, deletes, gone, db, u);
    }
  }

  lemma WrittenIsReadable(j: Job, refList: RefList, created: map<Path, Uuid>, deletes: set<Uuid>, db: Db)
    requires Written(j, refList, created, deletes, db)
    ensures Readable(j.schema, db)
  {
    RemainsReadable(j, refList, created, deletes, deletes, db);
  }

  /** What a session commits of a complete configuration, whatever the validators say. */
  lemma CommittedIsReadable(j: Job, refList: RefList, created: map<Path, Uuid>, verdict: Validators, deletes: seq<ResourceOp>, rows: Db)
    requires WellPosed(j) && ValidGraph(GraphOf(j.schema, j.base)) && Complete(j)
    requires Leaves(j, refList, created, RowsOf(deletes), {}, rows)
    ensures Readable(j.schema, AfterDeletes(verdict, deletes, rows))
  {
    RemainsReadable(j, refList, created, RowsOf(deletes), {}, rows);
    var after := AfterDeletes(verdict, deletes, rows);
    forall u, c, v | u in after && v in after && c in after[u].refs && v in Targets(after[u].refs[c])
      ensures RightTable(j.schema, after, u, c, v)
    {
      assert RightTable(j.schema, rows, u, c, v);
    }
  }

  // ---------- and no other replica ----------

  lemma LocationShows(j: Job, refList: RefList, created: map<Path, Uuid>, deletes: set<Uuid>, db: Db, p: Path)
    requires Written(j, refList, created, deletes, db) && Live(j, p)
    ensures Entered(j.schema, db, TableAt(j.schema, p), Place(j, created, p))
  {
    RowReadsBack(j, refList, created, deletes, db, p, DataAt(j, p));
  }

  lemma ColumnOfTidy(s: Schema, db: Db, t: Name, u: Uuid, c: Name, column: RefValue)
    requires ValidSchema(s) && Entered(s, db, t, u) && TidyRow(s, db, t, u, true)
    requires IsChildColumn(s.tables[t], c) && c in db[u].refs && db[u].refs[c] == column
    ensures TidyBelow(s, db, t, c, column, true)
  {
  }

  lemma FinalColumnAt(j: Job, refList: RefList, created: map<Path, Uuid>, deletes: set<Uuid>, db: Db, p: Path, c: Name)
    requires Written(j, refList, created, deletes, db) && Live(j, p) && c in ChildColumns(j, p)
    ensures Place(j, created, p) in db && c in db[Place(j, created, p)].refs
    ensures db[Place(j, created, p)].refs[c] == TargetColumn(j, created, p, c)
  {
    assert FinalAt(j, refList, created, db, p);
    FinalShape(j, refList, created, p);
    FinalChildColumn(j, refList, created, p, c);
  }

  /** The child columns of a location that reading comes to. */
  lemma ColumnReached(j: Job, refList: RefList, created: map<Path, Uuid>, deletes: set<Uuid>, db: Db, p: Path, c: Name)
    requires Written(j, refList, created, deletes, db) && Live(j, p) && c in ChildColumns(j, p)
    requires TidyRow(j.schema, db, TableAt(j.schema, p), Place(j, created, p), true)
    ensures TableAt(j.schema, p) in j.schema.tables && IsChildColumn(j.schema.tables[TableAt(j.schema, p)], c)
    ensures TidyBelow(j.schema, db, TableAt(j.schema, p), c, TargetColumn(j, created, p, c), true)
  {
    LocationShows(j, refList, created, deletes, db, p);
    FinalColumnAt(j, refList, created, deletes, db, p, c);
    ColumnOfTidy(j.schema, db, TableAt(j.schema, p), Place(j, created, p), c, TargetColumn(j, created, p, c));
  }

  /** A location that reading comes to from its parent. */
  lemma ChildReached(j: Job, refList: RefList, created: map<Path, Uuid>, deletes: set<Uuid>, db: Db, p: Path, c: Name, k: string)
    requires Written(j, refList, created, deletes, db) && Live(j, p) && c in ChildColumns(j, p) && k in KeysAt(j, p, c)
    requires TidyRow(j.schema, db, TableAt(j.schema, p), Place(j, created, p), true)
    ensures TidyRow(j.schema, db, TableAt(j.schema, p + [Step(c, k)]), Place(j, created, p + [Step(c, k)]), true)
  {
    ColumnReached(j, refList, created, deletes, db, p, c);
    ChildRow(j, created, p, c, k);
    PlacedTarget(j, created, p, c, k);
  }

  /** Reading comes to every location. */
  lemma {:induction false} TidyEverywhere(j: Job, refList: RefList, created: map<Path, Uuid>, deletes: set<Uuid>, db: Db, p: Path)
    requires Written(j, refList, created, deletes, db) && Tidy(j.schema, db, true) && Live(j, p)
    ensures TidyRow(j.schema, db, TableAt(j.schema, p), Place(j, created, p), true)
    decreases |p|
  {
    if |p| == 1 {
      TopReached(j, refList, created, deletes, db, p);
    } else {
      LiveParent(j, p);
      TidyEverywhere(j, refList, created, deletes, db, Parent(p));
      EntryReached(j, refList, created, deletes, db, p);
    }
  }

  lemma TopReached(j: Job, refList: RefList, created: map<Path, Uuid>, deletes: set<Uuid>, db: Db, p: Path)
    requires Written(j, refList, created, deletes, db) && Tidy(j.schema, db, true) && Live(j, p) && |p| == 1
    ensures TidyRow(j.schema, db, TableAt(j.schema, p), Place(j, created, p), true)
  {
    PlaceTable(j, refList, created, deletes, deletes, db, p);
    assert Fits(j, p);
    assert TidyTable(j.schema, db, TableAt(j.schema, p), true);
    assert Place(j, created, p) in RowsIn(db, TableAt(j.schema, p));
  }

  lemma EntryReached(j: Job, refList: RefList, created: map<Path, Uuid>, deletes: set<Uuid>, db: Db, p: Path)
    requires Written(j, refList, created, deletes, db) && Live(j, p) && |p| > 1 && Live(j, Parent(p))
    requires TidyRow(j.schema, db, TableAt(j.schema, Parent(p)), Place(j, created, Parent(p)), true)
    ensures TidyRow(j.schema, db, TableAt(j.schema, p), Place(j, created, p), true)
  {
    var q := Parent(p);
    LastStep(p);
    StepBelow(j, q, p);
    ChildReached(j, refList, created, deletes, db, q, Last(p).column, Last(p).key);
  }

  lemma LastStep(p: Path)
    requires |p| > 1
    ensures Parent(p) != [] && Parent(p) <= p && p[|Parent(p)|] == Last(p)
    ensures p == Parent(p) + [Step(Last(p).column, Last(p).key)]
  {
  }

  lemma SomeNotAll(s: Schema, db: Db, t: Name, entries: map<string, Uuid>, k: string, l: string)
    requires ValidSchema(s) && k in entries && l in entries
    requires ReadRow(s, db, t, entries[k]).None? && ReadRow(s, db, t, entries[l]).Some?
    ensures !AllOrNone(s, db, t, entries)
  {
    var reading := EntryData(s, db, t, entries);
    assert k in reading && l in reading;
  }

  lemma NamedEntryShows(j: Job, refList: RefList, created: map<Path, Uuid>, deletes: set<Uuid>, db: Db, p: Path, c: Name, ct: Name, l: string)
    requires Written(j, refList, created, deletes, db) && Live(j, p) && c in ChildColumns(j, p) && OldColumn(j, p, c).Map?
    requires TableAt(j.schema, p) in j.schema.tables && ct == j.schema.tables[TableAt(j.schema, p)].references[c].refTable
    requires l in KeysAt(j, p, c)
    ensures l in TargetColumn(j, created, p, c).entries
    ensures ReadRow(j.schema, db, ct, TargetColumn(j, created, p, c).entries[l]).Some?
  {
    EntryHasRow(j, created, p, c, l);
    ChildRow(j, created, p, c, l);
    RowReadsBack(j, refList, created, deletes, db, p + [Step(c, l)], DataAt(j, p + [Step(c, l)]));
  }

  lemma KeptEntryStays(j: Job, created: map<Path, Uuid>, p: Path, c: Name, k: string)
    requires OldColumn(j, p, c).Map? && k in OldColumn(j, p, c).entries && k !in KeysAt(j, p, c)
    requires Kept(GraphOf(j.schema, j.base), OldColumn(j, p, c).entries[k])
    ensures k in TargetColumn(j, created, p, c).entries
  {
  }

  /** Where an unnamed row is kept beside a named one, the column shows some of its rows and not others. */
  lemma TidyIsApart(j: Job, refList: RefList, created: map<Path, Uuid>, deletes: set<Uuid>, db: Db, p: Path, c: Name, ct: Name)
    requires Written(j, refList, created, deletes, db) && Live(j, p) && c in ChildColumns(j, p)
    requires TableAt(j.schema, p) in j.schema.tables && ct == j.schema.tables[TableAt(j.schema, p)].references[c].refTable
    requires OldColumn(j, p, c).Map? ==> AllOrNone(j.schema, db, ct, TargetColumn(j, created, p, c).entries)
    ensures NoneBeside(j, p, c)
  {
    if !NoneBeside(j, p, c) {
      var was := OldColumn(j, p, c).entries;
      var k :| k in was && k !in KeysAt(j, p, c) && Kept(GraphOf(j.schema, j.base), was[k]);
      var l :| l in KeysAt(j, p, c);
      KeptEntryStays(j, created, p, c, k);
      LeftoverEntry(j, refList, created, deletes, db, p, c, k, ct);
      NamedEntryShows(j, refList, created, deletes, db, p, c, ct, l);
      SomeNotAll(j.schema, db, ct, TargetColumn(j, created, p, c).entries, k, l);
    }
  }

  lemma TidyIsKeptApart(j: Job, refList: RefList, created: map<Path, Uuid>, deletes: set<Uuid>, db: Db)
    requires Written(j, refList, created, deletes, db) && Tidy(j.schema, db, true)
    ensures KeptApart(j)
  {
    forall p, c | Live(j, p) && c in ChildColumns(j, p)
      ensures NoneBeside(j, p, c)
    {
      TidyEverywhere(j, refList, created, deletes, db, p);
      ColumnReached(j, refList, created, deletes, db, p, c);
      TidyIsApart(j, refList, created, deletes, db, p, c, j.schema.tables[TableAt(j.schema, p)].references[c].refTable);
    }
  }

  /** A complete configuration that has been written reads back, whatever the order of the dictionaries,
      exactly when no row stays unnamed beside named ones in a key/value column. */
  lemma ReadsBackExactly(j: Job, refList: RefList, created: map<Path, Uuid>, deletes: set<Uuid>, db: Db, config: Config)
    requires Written(j, refList, created, deletes, db)
    requires SYSTEM_TABLE !in config.tables && j.root == RootOf(config)
    ensures KeptApart(j) <==> forall back {:trigger MayReadAll(j.schema, db, back)} :: MayReadAll(j.schema, db, back) ==> back == Some(config)
  {
    WriteThenRead(j, refList, created, deletes, db, config);
    WrittenIsTidy(j, refList, created, deletes, db, false);
    OneReadingExactly(j.schema, db);
    if KeptApart(j) {
      WrittenIsTidy(j, refList, created, deletes, db, true);
    } else if Tidy(j.schema, db, true) {
      TidyIsKeptApart(j, refList, created, deletes, db);
    }
  }

  // ---------- the laws ----------

  /** Writing a complete configuration and reading the replica gives the configuration back, if a commit
      takes place, every row put up for deletion goes, as it does when no validator crashes on a deletion of
      this run, and no row stays unnamed beside named ones in a key/value column. */
  method WriteAndRead(session: ConfigSession, indexMap: map<(Name, seq<string>), Uuid>, system: Uuid, config: Config,
                      verdict: Validators, accepted: bool)
    returns (result: WriteResult, back: Option<Config>, validator: ValidatorAdapter, ghost rows: Db)
    requires WellPosed(session.JobOf(indexMap, system, config)) && Listable(session.JobOf(indexMap, system, config), session.refList)
    requires ValidGraph(GraphOf(session.schema, session.db)) && Complete(session.JobOf(indexMap, system, config))
    requires SYSTEM_TABLE !in config.tables
    modifies session`db, session`refList
    ensures fresh(validator)
    ensures !result.Committed? ==> session.db == old(session.db)
    ensures result.Committed? ==>
              && session.db == AfterDeletes(verdict, validator.deletes, rows)
              && Readable(session.schema, session.db) && MayReadAll(session.schema, session.db, back)
    ensures result.Committed? && NoDeletionCrashes(verdict, validator.deletes, rows) ==> AllAccepted(verdict, validator.deletes, rows)
    ensures result.Committed? && AllAccepted(verdict, validator.deletes, rows) ==>
              && ReadAll(session.schema, session.db) == Some(config)
              && (KeptApart(old(session.JobOf(indexMap, system, config))) ==> back == Some(config))
  {
    ghost var job := session.JobOf(indexMap, system, config);
    ghost var created;
    result, validator, created, rows := session.Write(indexMap, system, config, verdict, accepted);
    back := None;
    if result.Committed? {
      CommittedIsReadable(job, session.refList, created, verdict, validator.deletes, rows);
      back := Read(session.schema, session.db);
      if AllAccepted(verdict, validator.deletes, rows) && KeptApart(job) {
        WrittenIsTidy(job, session.refList, created, RowsOf(validator.deletes), session.db, true);
      }
    }
  }

  /** Reading the replica and writing the configuration back, whichever of the possible readings it is,
      schedules no operation and leaves every row and reference as it was exactly when there is nothing to
      do.  On a tidy replica that is so exactly when the write is quiet: no row that was not read can be
      deleted. */
  method ReadAndWrite(session: ConfigSession, indexMap: map<(Name, seq<string>), Uuid>, system: Uuid,
                      verdict: Validators, accepted: bool)
    returns (config: Option<Config>, result: WriteResult, validator: ValidatorAdapter, ghost rows: Db)
    requires InOrder(Job(session.schema, session.db, indexMap, system, map[]))
    requires Listable(Job(session.schema, session.db, indexMap, system, map[]), session.refList)
    requires forall back {:trigger MayReadAll(session.schema, session.db, Some(back))} ::
               MayReadAll(session.schema, session.db, Some(back)) ==> MovesNoRow(session.JobOf(indexMap, system, back))
    modifies session`db, session`refList
    ensures MayReadAll(session.schema, old(session.db), config)
    ensures config.None? ==> session.db == old(session.db)
    ensures config.Some? ==>
              var job := old(session.JobOf(indexMap, system, config.value));
              && WellPosed(job) && ValidGraph(GraphOf(job.schema, job.base))
              && fresh(validator)
              && (NoEffect(validator, rows, old(session.db)) && !result.Unresolved? <==> Idle(job, session.refList))
              && (Idle(job, session.refList) ==> session.db == old(session.db) && result == if accepted then Committed else Refused)
    ensures Tidy(session.schema, old(session.db), true) ==> config == ReadAll(session.schema, old(session.db))
    ensures Tidy(session.schema, old(session.db), true) && config.Some? ==>
              var job := old(session.JobOf(indexMap, system, config.value));
              && ValidGraph(GraphOf(job.schema, job.base))
              && validator.creates == [] && validator.updates == []
              && (validator.deletes == [] <==> Quiet(job))
              && (Quiet(job) <==> Idle(job, session.refList))
  {
    OrderIsReadable(session.schema, session.db);
    config := Read(session.schema, session.db);
    result := Refused;
    validator := new ValidatorAdapter(verdict);
    rows := session.db;
    if config.Some? {
      ghost var job := session.JobOf(indexMap, system, config.value);
      OrderOfBase(Job(session.schema, session.db, indexMap, system, map[]), job);
      ReadingCanBeWritten(job);
      ghost var created;
      result, validator, created, rows := session.Write(indexMap, system, config.value, verdict, accepted);
      WriteBack(job, session.refList, created, validator, rows, !result.Unresolved?);
      if Tidy(job.schema, job.base, true) {
        TidyWriteBack(job, config.value, session.refList, created, validator, rows, !result.Unresolved?);
      }
    }
  }

  ghost predicate NoEffect(validator: ValidatorAdapter, rows: Db, base: Db)
    reads validator
  {
    validator.creates == [] && validator.updates == [] && validator.deletes == [] && rows == base
  }

  lemma WriteBack(j: Job, refList: RefList, created: map<Path, Uuid>, validator: ValidatorAdapter, rows: Db, resolved: bool)
    requires WellPosed(j) && Prepared(j, refList, created, validator.creates, validator.updates, validator.deletes, rows, resolved)
    ensures NoEffect(validator, rows, j.base) && resolved <==> Idle(j, refList)
    ensures Idle(j, refList) ==> forall verdict ::
              && ErrorsOf(verdict, validator.creates, validator.updates, validator.deletes, rows) == []
              && AfterDeletes(verdict, validator.deletes, rows) == j.base
  {
    IdleExactly(j, refList, created, validator.creates, validator.updates, validator.deletes, rows, resolved);
  }

  lemma TidyWriteBack(j: Job, config: Config, refList: RefList, created: map<Path, Uuid>, validator: ValidatorAdapter, rows: Db, resolved: bool)
    requires WellPosed(j) && Prepared(j, refList, created, validator.creates, validator.updates, validator.deletes, rows, resolved)
    requires InOrder(j) && Tidy(j.schema, j.base, true) && MayReadAll(j.schema, j.base, Some(config)) && j.root == RootOf(config)
    ensures ReadAll(j.schema, j.base) == Some(config)
    ensures validator.creates == [] && validator.updates == [] && (validator.deletes == [] <==> Quiet(j))
    ensures Quiet(j) <==> Idle(j, refList)
  {
    ConfigIsRead(j.schema, j.base, Some(config));
    ReadingIs(j, config);
    ReadThenWrite(j, refList, created, validator.creates, validator.updates, validator.deletes, rows, resolved);
    ReadingIsIdle(j, refList);
  }
}
