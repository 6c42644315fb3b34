/** The two laws of declarative configuration: what is written reads back, and writing what was read
    changes nothing. */
module ConfigTheorems {
  import opened Options
  import opened Database
  import opened Containment
  import opened Deletion
  import opened ConfigTree
  import opened ConfigTarget
  import opened ConfigDropped
  import opened ConfigStages
  import opened ConfigTables
  import opened ConfigRefs
  import opened ConfigRead
  import opened ConfigOutcome

  // ---------- write, then read ----------

  lemma FoundIndex(j: Job, refList: RefList, created: map<Path, Uuid>, deletes: set<Uuid>, db: Db, p: Path, c: Name, i: string)
    requires Written(j, refList, created, deletes, db)
    requires NodeAt(j.root, p).Some? && TableAt(j.schema, p) in j.schema.tables
    requires c in j.schema.tables[TableAt(j.schema, p)].references && j.schema.tables[TableAt(j.schema, p)].references[c].relation == Reference
    requires c in DataAt(j, p).refs && i in IndexesIn(DataAt(j, p).refs[c])
    ensures IndexAt(j.schema, db, Found(j, refList, j.schema.tables[TableAt(j.schema, p)].references[c].refTable, i)) == i
  {
    var t := j.schema.tables[TableAt(j.schema, p)].references[c].refTable;
    assert ValidColumn(j.schema, TableAt(j.schema, p), c);
    assert RefClosed(j, p, c, i);
    var q :| Names(j, q, t, i);
    assert Live(j, q);
    assert Located(j, refList, created, q);
    assert Faithful(j, q);
    if |q| == 1 {
      TopTable(j, q);
    } else {
      KeyedTable(j, q);
    }
    assert FinalAt(j, refList, created, db, q);
    IndexReadsBack(j, refList, created, db, q);
  }

  /** What reading one reference column of a final row gives. */
  ghost predicate RefColumnReads(j: Job, refList: RefList, db: Db, p: Path, ts: TableSchema, c: Name, v: RefValue) {
    && (c in DataAt(j, p).refs <==> Targets(v) != {})
    && (c in DataAt(j, p).refs && c in ts.references ==> ReadRef(j.schema, db, ts.references[c].shape, v) == DataAt(j, p).refs[c])
  }

  lemma RefColumnReadsBack(j: Job, refList: RefList, created: map<Path, Uuid>, deletes: set<Uuid>, db: Db, p: Path, c: Name)
    requires Written(j, refList, created, deletes, db)
    requires Live(j, p) && TableAt(j.schema, p) in j.schema.tables
    requires IsConfigReference(j.schema.tables[TableAt(j.schema, p)], c)
    ensures RefColumnReads(j, refList, db, p, j.schema.tables[TableAt(j.schema, p)], c, ColumnTarget(j, refList, p, c))
  {
    var ts, d := j.schema.tables[TableAt(j.schema, p)], DataAt(j, p);
    var column := ts.references[c];
    assert Fits(j, p) && Faithful(j, p);
    if c in d.refs {
      var named := d.refs[c];
      TargetsOfData(j, refList, column.refTable, column, named);
      forall i | i in IndexesIn(named)
        ensures IndexAt(j.schema, db, Found(j, refList, column.refTable, i)) == i
      {
        FoundIndex(j, refList, created, deletes, db, p, c, i);
      }
      RefReadsBack(j, refList, db, column.refTable, column.shape, named);
    }
  }

  lemma RefsAre(s: Schema, db: Db, ts: TableSchema, refs: map<Name, RefValue>, data: map<Name, RefData>)
    requires forall c :: c in data ==> c in refs && IsConfigReference(ts, c)
    requires forall c :: c in refs && IsConfigReference(ts, c) ==>
               && (c in data <==> Targets(refs[c]) != {})
               && (c in data ==> ReadRef(s, db, ts.references[c].shape, refs[c]) == data[c])
    ensures ReadRefs(s, db, ts, refs) == data
  {
  }

  lemma RefsReadBack(j: Job, refList: RefList, created: map<Path, Uuid>, deletes: set<Uuid>, db: Db, p: Path)
    requires Written(j, refList, created, deletes, db)
    requires Live(j, p) && TableAt(j.schema, p) in j.schema.tables
    ensures ReadRefs(j.schema, db, j.schema.tables[TableAt(j.schema, p)], FinalRow(j, refList, created, p).refs) == DataAt(j, p).refs
  {
    var ts, d := j.schema.tables[TableAt(j.schema, p)], DataAt(j, p);
    var refs := FinalRow(j, refList, created, p).refs;
    FinalShape(j, refList, created, p);
    assert Fits(j, p) && Faithful(j, p);
    forall c | c in refs && IsConfigReference(ts, c)
      ensures RefColumnReads(j, refList, db, p, ts, c, refs[c])
    {
      assert refs[c] == ColumnTarget(j, refList, p, c);
      RefColumnReadsBack(j, refList, created, deletes, db, p, c);
    }
    forall c | c in d.refs
      ensures c in refs && IsConfigReference(ts, c)
    {
      var named := d.refs[c];
    }
    RefsAre(j.schema, db, ts, refs, d.refs);
  }

  /** A child that stays without being named does not show. */
  lemma LeftoverIsInvisible(j: Job, refList: RefList, created: map<Path, Uuid>, deletes: set<Uuid>, db: Db, p: Path, c: Name, w: Uuid, ct: Name)
    requires Written(j, refList, created, deletes, db)
    requires Live(j, p) && Exist(j, p).Some? && c in ChildColumns(j, p)
    requires w in Targets(OldColumn(j, p, c)) && Kept(GraphOf(j.schema, j.base), w) && !Claimed(j, w)
    ensures !Entered(j.schema, db, ct, w)
  {
    assert Fits(j, p) && Faithful(j, p);
    assert LeavesNothing(j, p, c, w);
    assert Untold(j, deletes, db, w);
  }

  lemma ChildRow(j: Job, created: map<Path, Uuid>, p: Path, c: Name, k: string)
    requires WellPosed(j) && AllMade(j) && Live(j, p) && c in DataAt(j, p).children && k in DataAt(j, p).children[c].entries
    ensures Live(j, p + [Step(c, k)])
    ensures DataAt(j, p + [Step(c, k)]) == DataAt(j, p).children[c].entries[k]
    ensures Last(p + [Step(c, k)]).key == k
    ensures TableAt(j.schema, p) in j.schema.tables && c in ChildColumns(j, p)
    ensures TableAt(j.schema, p + [Step(c, k)]) == j.schema.tables[TableAt(j.schema, p)].references[c].refTable
    ensures k in NewChildren(j, created, p, c) && NewChildren(j, created, p, c)[k] == Place(j, created, p + [Step(c, k)])
  {
    ChildPath(p, Step(c, k));
    assert Fits(j, p);
    var named := DataAt(j, p).children[c];
    assert NodeAt(j.root, p + [Step(c, k)]).Some?;
  }

  /** Rows left over in a list column: named ones are the rows of their entries. */
  lemma ListedChild(j: Job, created: map<Path, Uuid>, p: Path, c: Name, u: Uuid, w: Uuid)
    requires WellPosed(j) && AllMade(j) && IsOld(j, p, u) && c in ChildColumns(j, p)
    requires OldColumn(j, p, c).Rows? && w in OldColumn(j, p, c).rows && NamedIn(j.schema, j.base, w, KeysAt(j, p, c))
    ensures w in NewChildren(j, created, p, c).Values
  {
    var k := RowIndex(j.schema, j.base, w);
    ColumnOf(j, p, c, u);
    ChildRow(j, created, p, c, k);
    var q := p + [Step(c, k)];
    ChildPath(p, Step(c, k));
    KeyedTable(j, q);
    KidIsLower(j.schema, j.base, u, c, w);
    assert RowListed(j, w);
    IndexOfSplits(j.schema.tables[j.base[w].table], j.base[w].config);
    TopTableOf(j, j.base[w].table);
    assert Exist(j, q) == Some(w);
  }

  lemma TopTableOf(j: Job, t: Name)
    requires WellPosed(j) && t in j.schema.tables
    ensures j.schema.tables[t].indexes != [] ==> t != SYSTEM_TABLE
  {
    assert ValidTable(j.schema, t);
  }

  function EntriesAt(j: Job, p: Path, c: Name): map<string, Data> {
    if c in DataAt(j, p).children then DataAt(j, p).children[c].entries else map[]
  }

  /** The row of an entry reads as the data of the entry. */
  ghost predicate EntryReads(j: Job, created: map<Path, Uuid>, db: Db, p: Path, c: Name, k: string)
    requires ValidSchema(j.schema) && k in EntriesAt(j, p, c)
  {
    var q := p + [Step(c, k)];
    ReadRow(j.schema, db, TableAt(j.schema, q), Place(j, created, q)) == Some(EntriesAt(j, p, c)[k])
  }

  lemma EntryRows(j: Job, created: map<Path, Uuid>, db: Db, p: Path, c: Name)
    requires WellPosed(j) && AllMade(j) && Live(j, p) && c in ChildColumns(j, p) && TableAt(j.schema, p) in j.schema.tables
    requires forall k {:trigger EntryReads(j, created, db, p, c, k)} :: k in EntriesAt(j, p, c) ==> EntryReads(j, created, db, p, c, k)
    ensures NewChildren(j, created, p, c).Keys == EntriesAt(j, p, c).Keys
    ensures forall k :: k in EntriesAt(j, p, c) ==>
              ReadRow(j.schema, db, j.schema.tables[TableAt(j.schema, p)].references[c].refTable, NewChildren(j, created, p, c)[k])
              == Some(EntriesAt(j, p, c)[k])
  {
    forall k | k in EntriesAt(j, p, c)
      ensures k in NewChildren(j, created, p, c)
      ensures ReadRow(j.schema, db, j.schema.tables[TableAt(j.schema, p)].references[c].refTable, NewChildren(j, created, p, c)[k])
              == Some(EntriesAt(j, p, c)[k])
    {
      ChildRow(j, created, p, c, k);
      assert EntryReads(j, created, db, p, c, k);
    }
  }

  /** The child columns of a final row read as the entries of its data. */
  lemma ColumnReadsBack(j: Job, refList: RefList, created: map<Path, Uuid>, deletes: set<Uuid>, db: Db, p: Path, c: Name)
    requires Written(j, refList, created, deletes, db)
    requires Live(j, p) && c in ChildColumns(j, p) && TableAt(j.schema, p) in j.schema.tables
    requires forall k {:trigger EntryReads(j, created, db, p, c, k)} :: k in EntriesAt(j, p, c) ==> EntryReads(j, created, db, p, c, k)
    ensures ReadChildren(j.schema, db, TableAt(j.schema, p), c, TargetColumn(j, created, p, c)) == EntriesAt(j, p, c)
  {
    EntryRows(j, created, db, p, c);
    if OldColumn(j, p, c).Rows? {
      ListReadsBack(j, refList, created, deletes, db, p, c);
    } else {
      KeyedReadsBack(j, refList, created, deletes, db, p, c);
    }
  }

  /** The entries lead to the rows of a list column that show. */
  lemma ListedRows(j: Job, refList: RefList, created: map<Path, Uuid>, deletes: set<Uuid>, db: Db, p: Path, c: Name)
    requires Written(j, refList, created, deletes, db)
    requires Live(j, p) && c in ChildColumns(j, p) && TableAt(j.schema, p) in j.schema.tables && OldColumn(j, p, c).Rows?
    requires NewChildren(j, created, p, c).Keys == EntriesAt(j, p, c).Keys
    requires forall k :: k in EntriesAt(j, p, c) ==>
               ReadRow(j.schema, db, j.schema.tables[TableAt(j.schema, p)].references[c].refTable, NewChildren(j, created, p, c)[k])
               == Some(EntriesAt(j, p, c)[k])
    ensures Lists(j.schema, db, j.schema.tables[TableAt(j.schema, p)].references[c].refTable, TargetColumn(j, created, p, c).rows,
                  EntriesAt(j, p, c), NewChildren(j, created, p, c))
  {
    var t := TableAt(j.schema, p);
    var ct := j.schema.tables[t].references[c].refTable;
    var entries, place, all := EntriesAt(j, p, c), NewChildren(j, created, p, c), TargetColumn(j, created, p, c).rows;
    forall k | k in entries
      ensures place[k] in all && IndexAt(j.schema, db, place[k]) == k
    {
      assert place[k] in place.Values;
      ListIndex(j, refList, created, deletes, db, p, c, k);
    }
    forall v | v in all && ReadRow(j.schema, db, ct, v).Some?
      ensures v in place.Values
    {
      if v !in place.Values {
        LeftoverRow(j, refList, created, deletes, db, p, c, v, ct);
      }
    }
  }

  lemma ListReadsBack(j: Job, refList: RefList, created: map<Path, Uuid>, deletes: set<Uuid>, db: Db, p: Path, c: Name)
    requires Written(j, refList, created, deletes, db)
    requires Live(j, p) && c in ChildColumns(j, p) && TableAt(j.schema, p) in j.schema.tables && OldColumn(j, p, c).Rows?
    requires NewChildren(j, created, p, c).Keys == EntriesAt(j, p, c).Keys
    requires forall k :: k in EntriesAt(j, p, c) ==>
               ReadRow(j.schema, db, j.schema.tables[TableAt(j.schema, p)].references[c].refTable, NewChildren(j, created, p, c)[k])
               == Some(EntriesAt(j, p, c)[k])
    ensures ReadChildren(j.schema, db, TableAt(j.schema, p), c, TargetColumn(j, created, p, c)) == EntriesAt(j, p, c)
  {
    ListedRows(j, refList, created, deletes, db, p, c);
    ReadListIs(j.schema, db, TableAt(j.schema, p), c, TargetColumn(j, created, p, c).rows, EntriesAt(j, p, c), NewChildren(j, created, p, c));
  }

  lemma KeyedReadsBack(j: Job, refList: RefList, created: map<Path, Uuid>, deletes: set<Uuid>, db: Db, p: Path, c: Name)
    requires Written(j, refList, created, deletes, db)
    requires Live(j, p) && c in ChildColumns(j, p) && TableAt(j.schema, p) in j.schema.tables && OldColumn(j, p, c).Map?
    requires NewChildren(j, created, p, c).Keys == EntriesAt(j, p, c).Keys
    requires forall k :: k in EntriesAt(j, p, c) ==>
               ReadRow(j.schema, db, j.schema.tables[TableAt(j.schema, p)].references[c].refTable, NewChildren(j, created, p, c)[k])
               == Some(EntriesAt(j, p, c)[k])
    ensures ReadChildren(j.schema, db, TableAt(j.schema, p), c, TargetColumn(j, created, p, c)) == EntriesAt(j, p, c)
  {
    var t := TableAt(j.schema, p);
    var ct := j.schema.tables[t].references[c].refTable;
    var entries, all := EntriesAt(j, p, c), TargetColumn(j, created, p, c).entries;
    forall k | k in all && k !in entries
      ensures ReadRow(j.schema, db, ct, all[k]) == None
    {
      LeftoverEntry(j, refList, created, deletes, db, p, c, k, ct);
    }
    ReadKeyedIs(j.schema, db, t, c, all, entries);
  }

  lemma ListIndex(j: Job, refList: RefList, created: map<Path, Uuid>, deletes: set<Uuid>, db: Db, p: Path, c: Name, k: string)
    requires Written(j, refList, created, deletes, db)
    requires Live(j, p) && c in DataAt(j, p).children && k in DataAt(j, p).children[c].entries && OldColumn(j, p, c).Rows?
    ensures IndexAt(j.schema, db, Place(j, created, p + [Step(c, k)])) == k
  {
    var q := p + [Step(c, k)];
    ChildRow(j, created, p, c, k);
    ChildPath(p, Step(c, k));
    OldColumnShape(j, p, c);
    KeyedTable(j, q);
    assert Faithful(j, q);
    assert FinalAt(j, refList, created, db, q);
    IndexReadsBack(j, refList, created, db, q);
  }

  lemma LeftoverRow(j: Job, refList: RefList, created: map<Path, Uuid>, deletes: set<Uuid>, db: Db, p: Path, c: Name, v: Uuid, ct: Name)
    requires Written(j, refList, created, deletes, db)
    requires Live(j, p) && c in ChildColumns(j, p) && OldColumn(j, p, c).Rows?
    requires v in Targets(TargetColumn(j, created, p, c)) && v !in NewChildren(j, created, p, c).Values
    ensures !Entered(j.schema, db, ct, v)
  {
    StartColumn(j, p, c);
    assert v in Targets(Remainder(j.schema, j.base, OldColumn(j, p, c), KeysAt(j, p, c)));
    assert v in OldColumn(j, p, c).rows;
    var u := Exist(j, p).value;
    assert IsOld(j, p, u);
    ColumnOf(j, p, c, u);
    if NamedIn(j.schema, j.base, v, KeysAt(j, p, c)) {
      ListedChild(j, created, p, c, u, v);
    }
    UnnamedIsUnclaimed(j, p, c, u, v);
    LeftoverIsInvisible(j, refList, created, deletes, db, p, c, v, ct);
  }

  lemma UnnamedIsUnclaimed(j: Job, p: Path, c: Name, u: Uuid, v: Uuid)
    requires WellPosed(j) && IsOld(j, p, u) && c in ChildColumns(j, p) && v in Targets(OldColumn(j, p, c))
    requires OldColumn(j, p, c).Rows? ==> !NamedIn(j.schema, j.base, v, KeysAt(j, p, c))
    requires OldColumn(j, p, c).Map? ==>
               forall k :: k in OldColumn(j, p, c).entries && OldColumn(j, p, c).entries[k] == v ==> k !in KeysAt(j, p, c)
    ensures !Claimed(j, v)
  {
    ColumnOf(j, p, c, u);
    if Claimed(j, v) {
      var q :| IsOld(j, q, v);
      ClaimedChild(j, p, u, c, v, q);
      ChildPath(p, Last(q));
    }
  }

  lemma LeftoverKey(j: Job, created: map<Path, Uuid>, p: Path, c: Name, k: string)
    requires OldColumn(j, p, c).Map? && k in TargetColumn(j, created, p, c).entries && k !in KeysAt(j, p, c)
    ensures k in OldColumn(j, p, c).entries && TargetColumn(j, created, p, c).entries[k] == OldColumn(j, p, c).entries[k]
    ensures Kept(GraphOf(j.schema, j.base), OldColumn(j, p, c).entries[k])
  {
  }

  lemma LeftoverEntry(j: Job, refList: RefList, created: map<Path, Uuid>, deletes: set<Uuid>, db: Db, p: Path, c: Name, k: string, ct: Name)
    requires Written(j, refList, created, deletes, db)
    requires Live(j, p) && c in ChildColumns(j, p) && OldColumn(j, p, c).Map?
    requires k in TargetColumn(j, created, p, c).entries && k !in KeysAt(j, p, c)
    ensures !Entered(j.schema, db, ct, TargetColumn(j, created, p, c).entries[k])
  {
    StartColumn(j, p, c);
    LeftoverKey(j, created, p, c, k);
    var entries := OldColumn(j, p, c).entries;
    var v := TargetColumn(j, created, p, c).entries[k];
    var u := Exist(j, p).value;
    assert IsOld(j, p, u);
    ColumnOf(j, p, c, u);
    assert v in Targets(OldColumn(j, p, c));
    forall l | l in entries && entries[l] == v
      ensures l !in KeysAt(j, p, c)
    {
      assert HasKey(j.schema, j.base, u, c, k) && HasKey(j.schema, j.base, u, c, l);
    }
    UnnamedIsUnclaimed(j, p, c, u, v);
    LeftoverIsInvisible(j, refList, created, deletes, db, p, c, v, ct);
  }

  lemma ChildrenAre(s: Schema, db: Db, t: Name, refs: map<Name, RefValue>, children: map<Name, Children>)
    requires ValidSchema(s) && t in s.tables
    requires forall c :: c in children ==> c in refs && IsChildColumn(s.tables[t], c) && children[c].entries != map[]
    requires forall c :: c in refs && IsChildColumn(s.tables[t], c) ==>
               ReadChildren(s, db, t, c, refs[c]) == if c in children then children[c].entries else map[]
    ensures ReadColumns(s, db, t, refs) == children
  {
    forall c | c in children
      ensures Children(ReadChildren(s, db, t, c, refs[c])) == children[c]
    {
      assert Children(children[c].entries) == children[c];
    }
  }

  /** A row whose parts read as the parts of `d`. */
  lemma RowReadsAs(s: Schema, db: Db, t: Name, u: Uuid, d: Data)
    requires ValidSchema(s) && u in db && db[u].table == t && t in s.tables && !Hidden(db[u]) && HasConfigCategory(s.tables[t])
    requires d != EMPTY_DATA
    requires ReadConfig(s.tables[t], db[u].config) == d.config
    requires ReadRefs(s, db, s.tables[t], db[u].refs) == d.refs
    requires ReadColumns(s, db, t, db[u].refs) == d.children
    ensures ReadRow(s, db, t, u) == Some(d)
  {
  }

  lemma FinalChildColumn(j: Job, refList: RefList, created: map<Path, Uuid>, p: Path, c: Name)
    requires WellPosed(j) && Live(j, p) && TableAt(j.schema, p) in j.schema.tables
    requires IsChildColumn(j.schema.tables[TableAt(j.schema, p)], c)
    ensures c in FinalRow(j, refList, created, p).refs && c in ChildColumns(j, p)
    ensures FinalRow(j, refList, created, p).refs[c] == TargetColumn(j, created, p, c)
  {
    FinalShape(j, refList, created, p);
  }

  /** What the final row of a location reads as, given what its child columns read as. */
  lemma FinalRowReads(j: Job, refList: RefList, created: map<Path, Uuid>, deletes: set<Uuid>, db: Db, p: Path)
    requires Written(j, refList, created, deletes, db) && Live(j, p) && TableAt(j.schema, p) in j.schema.tables
    requires forall c :: IsChildColumn(j.schema.tables[TableAt(j.schema, p)], c) ==>
               ReadChildren(j.schema, db, TableAt(j.schema, p), c, TargetColumn(j, created, p, c)) == EntriesAt(j, p, c)
    ensures ReadRow(j.schema, db, TableAt(j.schema, p), Place(j, created, p)) == Some(DataAt(j, p))
  {
    var t, u, d := TableAt(j.schema, p), Place(j, created, p), DataAt(j, p);
    assert Fits(j, p) && Faithful(j, p);
    assert FinalAt(j, refList, created, db, p);
    FinalShape(j, refList, created, p);
    FinalConfig(j, refList, created, p);
    RefsReadBack(j, refList, created, deletes, db, p);
    forall c | IsChildColumn(j.schema.tables[t], c)
      ensures c in db[u].refs && db[u].refs[c] == TargetColumn(j, created, p, c)
    {
      FinalChildColumn(j, refList, created, p, c);
    }
    forall c | c in d.children
      ensures IsChildColumn(j.schema.tables[t], c) && d.children[c].entries != map[]
    {
      var named := d.children[c];
    }
    ChildrenAre(j.schema, db, t, db[u].refs, d.children);
    RowReadsAs(j.schema, db, t, u, d);
  }

  /** Every location of the configuration reads back as it was written. */
  lemma {:induction false} RowReadsBack(j: Job, refList: RefList, created: map<Path, Uuid>, deletes: set<Uuid>, db: Db, p: Path, d: Data)
    requires Written(j, refList, created, deletes, db) && Live(j, p) && d == DataAt(j, p)
    ensures ReadRow(j.schema, db, TableAt(j.schema, p), Place(j, created, p)) == Some(d)
    decreases d
  {
    var t := TableAt(j.schema, p);
    assert Fits(j, p);
    forall c | IsChildColumn(j.schema.tables[t], c)
      ensures ReadChildren(j.schema, db, t, c, TargetColumn(j, created, p, c)) == EntriesAt(j, p, c)
    {
      forall k | k in EntriesAt(j, p, c)
        ensures EntryReads(j, created, db, p, c, k)
      {
        ChildRow(j, created, p, c, k);
        RowReadsBack(j, refList, created, deletes, db, p + [Step(c, k)], d.children[c].entries[k]);
      }
      ColumnReadsBack(j, refList, created, deletes, db, p, c);
    }
    FinalRowReads(j, refList, created, deletes, db, p);
  }

  // ---------- top-level tables ----------

  /** `v` is the row of the entry `k` of top-level table `t`. */
  ghost predicate TopEntry(j: Job, created: map<Path, Uuid>, t: Name, k: string, v: Uuid) {
    t in j.root && k in j.root[t].entries && v == Place(j, created, [Step(t, k)])
  }

  lemma NamedTopRow(j: Job, refList: RefList, created: map<Path, Uuid>, deletes: set<Uuid>, db: Db, q: Path, t: Name)
    requires Written(j, refList, created, deletes, db)
    requires Live(j, q) && IsTopLevel(j.schema, t)
    requires Place(j, created, q) in db && db[Place(j, created, q)].table == t
    ensures q != [] && TopEntry(j, created, t, Last(q).key, Place(j, created, q))
  {
    assert FinalAt(j, refList, created, db, q);
    FinalShape(j, refList, created, q);
    assert Fits(j, q);
    assert |q| == 1;
    assert q == [Step(t, Last(q).key)];
  }

  lemma EntryRow(j: Job, t: Name, k: string)
    requires WellPosed(j) && AllMade(j) && t in j.root && k in j.root[t].entries
    ensures Live(j, [Step(t, k)]) && DataAt(j, [Step(t, k)]) == j.root[t].entries[k] && TableAt(j.schema, [Step(t, k)]) == t
    ensures IsTopLevel(j.schema, t)
  {
    assert NodeAt(j.root, [Step(t, k)]).Some?;
    assert Fits(j, [Step(t, k)]);
  }

  /** A committed top-level row whose index the configuration names is claimed. */
  lemma IndexedTopRow(j: Job, u: Uuid)
    requires WellPosed(j) && AllMade(j) && u in j.base && IsTopLevel(j.schema, j.base[u].table)
    requires j.base[u].table in j.root && IndexAt(j.schema, j.base, u) in j.root[j.base[u].table].entries
    ensures Claimed(j, u)
  {
    var t, k := j.base[u].table, IndexAt(j.schema, j.base, u);
    EntryRow(j, t, k);
    TopTable(j, [Step(t, k)]);
    assert ValidRow(j.schema, j.base[u]);
    if t != SYSTEM_TABLE {
      assert RowListed(j, u);
      IndexOfSplits(j.schema.tables[t], j.base[u].config);
    }
    assert IsOld(j, [Step(t, k)], u);
  }

  /** A top-level row that no location names does not show. */
  lemma UnnamedTopRow(j: Job, refList: RefList, created: map<Path, Uuid>, deletes: set<Uuid>, db: Db, v: Uuid)
    requires Written(j, refList, created, deletes, db)
    requires v in j.base && !Claimed(j, v) && IsTopLevel(j.schema, j.base[v].table)
    ensures !Entered(j.schema, db, j.base[v].table, v)
  {
    assert Untold(j, deletes, db, v);
    assert TopAccounted(j, v);
    var t := j.base[v].table;
    if t in j.root && IndexAt(j.schema, j.base, v) in j.root[t].entries {
      IndexedTopRow(j, v);
    }
    if !Invisible(j, v) {
      RootIsPlanned(GraphOf(j.schema, j.base), v);
      assert DroppedAt(j, At([], t).path, At([], t).column, v) && At([], t) in AllSites(j);
      assert Doomed(j, AllSites(j), v);
    }
  }

  /** A row of a top-level table is that of one of its entries, or not gone into. */
  lemma TopRowIs(j: Job, refList: RefList, created: map<Path, Uuid>, deletes: set<Uuid>, db: Db, t: Name, v: Uuid)
    requires Written(j, refList, created, deletes, db) && IsTopLevel(j.schema, t) && v in RowsIn(db, t)
    ensures (exists k :: TopEntry(j, created, t, k, v)) || !Entered(j.schema, db, t, v)
  {
    if v in created.Values {
      var q :| q in created && created[q] == v;
      NamedTopRow(j, refList, created, deletes, db, q, t);
    } else if Claimed(j, v) {
      var q :| IsOld(j, q, v);
      NamedTopRow(j, refList, created, deletes, db, q, t);
    } else {
      assert Untold(j, deletes, db, v);
      UnnamedTopRow(j, refList, created, deletes, db, v);
    }
  }

  ghost function TopPlaces(j: Job, created: map<Path, Uuid>, t: Name): map<string, Uuid>
    requires t in j.root
  {
    map k | k in j.root[t].entries :: Place(j, created, [Step(t, k)])
  }

  lemma TopEntryReads(j: Job, refList: RefList, created: map<Path, Uuid>, deletes: set<Uuid>, db: Db, t: Name, k: string)
    requires Written(j, refList, created, deletes, db) && t in j.root && k in j.root[t].entries
    ensures var v := Place(j, created, [Step(t, k)]);
            v in RowsIn(db, t) && IndexAt(j.schema, db, v) == k && ReadRow(j.schema, db, t, v) == Some(j.root[t].entries[k])
  {
    var p := [Step(t, k)];
    EntryRow(j, t, k);
    assert Faithful(j, p);
    assert FinalAt(j, refList, created, db, p);
    FinalShape(j, refList, created, p);
    RowReadsBack(j, refList, created, deletes, db, p, j.root[t].entries[k]);
    TopTable(j, p);
    IndexReadsBack(j, refList, created, db, p);
  }

  /** The entries lead to the rows of a top-level table that show. */
  lemma ListedTable(j: Job, refList: RefList, created: map<Path, Uuid>, deletes: set<Uuid>, db: Db, t: Name)
    requires Written(j, refList, created, deletes, db) && IsTopLevel(j.schema, t)
    ensures if t in j.root then Lists(j.schema, db, t, RowsIn(db, t), j.root[t].entries, TopPlaces(j, created, t))
            else Lists(j.schema, db, t, RowsIn(db, t), map[], map[])
  {
    forall v | v in RowsIn(db, t) && ReadRow(j.schema, db, t, v).Some?
      ensures t in j.root && v in TopPlaces(j, created, t).Values
    {
      TopRowIs(j, refList, created, deletes, db, t, v);
      var k :| TopEntry(j, created, t, k, v);
      assert TopPlaces(j, created, t)[k] == v;
    }
    if t in j.root {
      var place := TopPlaces(j, created, t);
      forall k | k in j.root[t].entries
        ensures place[k] in RowsIn(db, t) && IndexAt(j.schema, db, place[k]) == k
        ensures ReadRow(j.schema, db, t, place[k]) == Some(j.root[t].entries[k])
      {
        TopEntryReads(j, refList, created, deletes, db, t, k);
      }
    }
  }

  lemma TableReadsBack(j: Job, refList: RefList, created: map<Path, Uuid>, deletes: set<Uuid>, db: Db, t: Name)
    requires Written(j, refList, created, deletes, db) && IsTopLevel(j.schema, t)
    ensures ReadTable(j.schema, db, t) == if t in j.root then j.root[t].entries else map[]
  {
    ListedTable(j, refList, created, deletes, db, t);
    if t in j.root {
      ReadTableIs(j.schema, db, t, j.root[t].entries, TopPlaces(j, created, t));
    } else {
      ReadTableIs(j.schema, db, t, map[], map[]);
    }
  }

  lemma TableIsRead(s: Schema, db: Db, root: Root, back: Root, t: Name)
    requires ValidSchema(s) && back == ReadRoot(s, db)
    requires t in root ==> IsTopLevel(s, t) && root[t].entries != map[]
    requires IsTopLevel(s, t) ==> ReadTable(s, db, t) == if t in root then root[t].entries else map[]
    ensures t in back <==> t in root
    ensures t in root ==> back[t] == root[t]
  {
    if t in root {
      assert Children(root[t].entries) == root[t];
    }
  }

  lemma RootIs(s: Schema, db: Db, root: Root)
    requires ValidSchema(s)
    requires forall t :: t in root ==> IsTopLevel(s, t) && root[t].entries != map[]
    requires forall t {:trigger IsTopLevel(s, t)} :: IsTopLevel(s, t) ==>
               ReadTable(s, db, t) == if t in root then root[t].entries else map[]
    ensures ReadRoot(s, db) == root
  {
    var back := ReadRoot(s, db);
    forall t
      ensures t in back <==> t in root
      ensures t in root ==> back[t] == root[t]
    {
      TableIsRead(s, db, root, back, t);
    }
  }

  lemma ConfigOfRoot(s: Schema, db: Db, config: Config)
    requires ValidSchema(s) && SYSTEM_TABLE !in config.tables && ReadRoot(s, db) == RootOf(config)
    ensures ReadAll(s, db) == Some(config)
  {
    assert RootOf(config) - {SYSTEM_TABLE} == config.tables;
  }

  /** A configuration that has been written reads back as itself. */
  lemma WriteThenRead(j: Job, refList: RefList, created: map<Path, Uuid>, deletes: set<Uuid>, db: Db, config: Config)
    requires Written(j, refList, created, deletes, db)
    requires SYSTEM_TABLE !in config.tables && j.root == RootOf(config)
    ensures ReadAll(j.schema, db) == Some(config)
  {
    forall t | t in j.root
      ensures IsTopLevel(j.schema, t)
    {
      var k :| k in j.root[t].entries;
      EntryRow(j, t, k);
    }
    forall t | IsTopLevel(j.schema, t)
      ensures ReadTable(j.schema, db, t) == if t in j.root then j.root[t].entries else map[]
    {
      TableReadsBack(j, refList, created, deletes, db, t);
    }
    RootIs(j.schema, db, j.root);
    ConfigOfRoot(j.schema, db, config);
  }

  // ---------- what writing does not overwrite ----------

  /** A child of a named row is not part of the plan of another row. */
  lemma PlannedAlone(j: Job, at: Site, r: Uuid, u: Uuid, c: Name, w: Uuid)
    requires WellPosed(j) && ValidGraph(GraphOf(j.schema, j.base))
    requires Claimed(j, u) && IsChildOf(j.schema, j.base, u, c, w)
    requires DroppedAt(j, at.path, at.column, r) && w in PlanSet(GraphOf(j.schema, j.base), r)
    ensures r == w
  {
    var g := GraphOf(j.schema, j.base);
    DroppedIsUnclaimed(j, at.path, at.column, r);
    PlanIsBelow(g, r, w);
    if r != w {
      var y := BelowOwner(g, r, w);
      var d := KidsAreChildren(j.schema, j.base, y, w);
      assert y == u;
      UnclaimedBelow(j, g, r, u);
    }
  }

  /** A child of a named row is part of no plan but its own, made when its column was gone through. */
  lemma ChildIsRoot(j: Job, p: Path, u: Uuid, c: Name, at: Site, r: Uuid, w: Uuid)
    requires WellPosed(j) && ValidGraph(GraphOf(j.schema, j.base))
    requires IsOld(j, p, u) && c in ChildColumns(j, p) && w in Targets(OldColumn(j, p, c))
    requires DroppedAt(j, at.path, at.column, r) && w in PlanSet(GraphOf(j.schema, j.base), r)
    ensures r == w && at == At(p, c)
  {
    ColumnOf(j, p, c, u);
    assert IsChildOf(j.schema, j.base, u, c, w);
    PlannedAlone(j, at, r, u, c, w);
    DroppedOwner(j, at, w, u, c);
    ExistInjective(j, p, at.path);
  }

  /** A write conserves the children of every named row: each either stays in its column or is on the
      DELETE list, and none is both. */
  lemma ChildConserved(j: Job, p: Path, u: Uuid, c: Name, w: Uuid)
    requires WellPosed(j) && ValidGraph(GraphOf(j.schema, j.base))
    requires IsOld(j, p, u) && c in ChildColumns(j, p) && w in Targets(OldColumn(j, p, c))
    ensures w in Targets(Remainder(j.schema, j.base, OldColumn(j, p, c), KeysAt(j, p, c))) <==> !Doomed(j, AllSites(j), w)
  {
    var g, column, keys := GraphOf(j.schema, j.base), OldColumn(j, p, c), KeysAt(j, p, c);
    RootIsPlanned(g, w);
    ColumnOf(j, p, c, u);
    if Doomed(j, AllSites(j), w) {
      var at, r :| at in AllSites(j) && DroppedAt(j, at.path, at.column, r) && w in PlanSet(g, r);
      ChildIsRoot(j, p, u, c, at, r, w);
    } else {
      assert At(p, c) in AllSites(j) && (DroppedAt(j, At(p, c).path, At(p, c).column, w) ==> !Removable(g, w));
    }
    ChildStays(j, p, u, c, w);
  }

  lemma ChildStays(j: Job, p: Path, u: Uuid, c: Name, w: Uuid)
    requires WellPosed(j) && IsOld(j, p, u) && c in ChildColumns(j, p) && w in Targets(OldColumn(j, p, c))
    ensures w in Targets(Remainder(j.schema, j.base, OldColumn(j, p, c), KeysAt(j, p, c))) <==>
            !(DroppedAt(j, p, c, w) && Removable(GraphOf(j.schema, j.base), w))
  {
    var column, keys := OldColumn(j, p, c), KeysAt(j, p, c);
    assert p != [];
    if column.Map? {
      var k :| k in column.entries && column.entries[k] == w;
      ColumnOf(j, p, c, u);
      forall l | l in column.entries && column.entries[l] == w
        ensures l == k
      {
        assert HasKey(j.schema, j.base, u, c, k) && HasKey(j.schema, j.base, u, c, l);
      }
      KeyStays(j, column.entries, keys, k);
    }
  }

  lemma KeyStays(j: Job, entries: map<string, Uuid>, keys: set<string>, k: string)
    requires k in entries && forall l :: l in entries && entries[l] == entries[k] ==> l == k
    ensures entries[k] in Targets(Remainder(j.schema, j.base, Map(entries), keys)) <==>
            !(entries[k] in Dropped(j.schema, j.base, Map(entries), keys) && Removable(GraphOf(j.schema, j.base), entries[k]))
  {
    var left := Remainder(j.schema, j.base, Map(entries), keys).entries;
    if k in left {
      assert left[k] in left.Values;
    }
  }

  /** A row of a top-level table is not part of any plan but its own. */
  lemma TopRowIsRoot(j: Job, at: Site, w: Uuid, v: Uuid)
    requires WellPosed(j) && ValidGraph(GraphOf(j.schema, j.base))
    requires v in j.base && IsTopLevel(j.schema, j.base[v].table)
    requires DroppedAt(j, at.path, at.column, w) && v in PlanSet(GraphOf(j.schema, j.base), w)
    ensures v == w && at.path == []
  {
    var g := GraphOf(j.schema, j.base);
    PlanIsBelow(g, w, v);
    if v != w {
      var y := BelowOwner(g, w, v);
      var c := KidsAreChildren(j.schema, j.base, y, v);
      ContainedTable(j, y, c, v);
    } else if at.path != [] {
      var u := Exist(j, at.path).value;
      assert IsOld(j, at.path, u);
      ColumnOf(j, at.path, at.column, u);
      ContainedTable(j, u, at.column, w);
    }
  }

  /** A row of a top-level table is put up for deletion exactly when the configuration leaves out its
      table, the table lets its rows be deleted, and so do those of all its children. */
  lemma DoomedTopRow(j: Job, v: Uuid)
    requires WellPosed(j) && ValidGraph(GraphOf(j.schema, j.base))
    requires v in j.base && IsTopLevel(j.schema, j.base[v].table)
    ensures Doomed(j, AllSites(j), v) <==>
              && j.base[v].table !in j.root
              && j.base[v].table in j.schema.tables && j.schema.tables[j.base[v].table].mutable
              && j.base[v].table != "Bridge" && j.base[v].table != "VRF"
              && forall c, w :: IsChildOf(j.schema, j.base, v, c, w) ==>
                   && w in j.base && j.base[w].table in j.schema.tables && j.schema.tables[j.base[w].table].mutable
                   && j.base[w].table != "Bridge" && j.base[w].table != "VRF"
  {
    var g, t := GraphOf(j.schema, j.base), j.base[v].table;
    RootIsPlanned(g, v);
    RemovableExactly(j.schema, j.base, v);
    if Doomed(j, AllSites(j), v) {
      var at, w :| at in AllSites(j) && DroppedAt(j, at.path, at.column, w) && v in PlanSet(g, w);
      TopRowIsRoot(j, at, w, v);
    }
    if t !in j.root && DeleteCheck(j.schema, t) && Removable(g, v) {
      assert At([], t) in AllSites(j) && DroppedAt(j, At([], t).path, At([], t).column, v);
    }
  }

  /** Writing is not an overwriting of whole tables: rows of a top-level table that the configuration
      mentions, but that it does not name, stay as they are. */
  lemma UnnamedRowsStay(j: Job, refList: RefList, created: map<Path, Uuid>, deletes: set<Uuid>, gone: set<Uuid>, db: Db, v: Uuid)
    requires WellPosed(j) && ValidGraph(GraphOf(j.schema, j.base)) && gone <= deletes
    requires Leaves(j, refList, created, deletes, gone, db)
    requires v in j.base && IsTopLevel(j.schema, j.base[v].table) && j.base[v].table in j.root && !Claimed(j, v)
    ensures v in db && db[v] == j.base[v]
  {
    assert Untold(j, gone, db, v);
    if v in gone {
      DoomedTopRow(j, v);
    }
  }
}
