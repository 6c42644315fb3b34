/** Writing back the configuration that the replica stands for. */
module ConfigUnchanged {
  import opened Options
  import opened Database
  import opened Validation
  import opened Containment
  import opened Deletion
  import opened ConfigTree
  import opened ConfigTarget
  import opened ConfigDropped
  import opened ConfigTables
  import opened ConfigRefs
  import opened ConfigRead
  import opened ConfigOutcome
  import opened ConfigReading
  import opened ConfigSession
  import opened ConfigIdle

  // ---------- rows that were read keep their columns ----------

  lemma ReadIsOld(j: Job, p: Path) returns (u: Uuid)
    requires IsReading(j) && NodeAt(j.root, p).Some?
    ensures IsOld(j, p, u) && u in j.base && j.base[u].table == TableAt(j.schema, p) && TableAt(j.schema, p) in j.schema.tables
    ensures ReadRow(j.schema, j.base, j.base[u].table, u) == Some(DataAt(j, p))
  {
    ReadEverywhere(j, p);
    u := Exist(j, p).value;
  }

  /** The columns that reading leaves out as empty are those that writing leaves alone. */
  lemma ConfigUnchanged(ts: TableSchema, config: map<Name, Value>)
    requires config.Keys == ts.config.Keys
    ensures TargetConfig(ts, config, ReadConfig(ts, config)) == config
  {
    forall c | c in config
      ensures TargetConfig(ts, config, ReadConfig(ts, config))[c] == config[c]
    {
      EmptyLikeIsEmpty(config[c]);
    }
  }

  lemma StartUnchanged(j: Job, p: Path, u: Uuid)
    requires IsReading(j) && WellPosed(j) && IsOld(j, p, u)
    ensures u in j.base && StartRow(j, p) == j.base[u] && !Changed(j, p)
  {
    var v := ReadIsOld(j, p);
    ReadRowIs(j.schema, j.base, j.base[u].table, u);
    assert ValidRow(j.schema, j.base[u]);
    ConfigUnchanged(j.schema.tables[j.base[u].table], j.base[u].config);
  }

  // ---------- references ----------

  lemma FoundByIndex(j: Job, refList: RefList, t: Name, w: Uuid)
    requires IsReading(j) && Indexed(j.schema, j.base, w) && j.base[w].table == t
    ensures FindRow(j, refList, t, IndexAt(j.schema, j.base, w)) == Some(w)
  {
    IndexLooksUp(j, w);
    IndexOfSplits(j.schema.tables[t], j.base[w].config);
  }

  ghost predicate AllFound(j: Job, refList: RefList, t: Name, rows: set<Uuid>) {
    forall w {:trigger IndexAt(j.schema, j.base, w)} :: w in rows ==> FindRow(j, refList, t, IndexAt(j.schema, j.base, w)) == Some(w)
  }

  /** The references stay what they are when they are read and looked up again. */
  ghost predicate RefIsStable(j: Job, refList: RefList, t: Name, shape: Shape, v: RefValue) {
    if Targets(v) == {} then v == NoRows(shape)
    else
      && RefTarget(j, refList, t, ReadRef(j.schema, j.base, shape, v)) == v
      && Resolves(j, refList, t, ReadRef(j.schema, j.base, shape, v))
  }

  lemma NoValues(entries: map<string, Uuid>)
    ensures entries.Values == {} ==> entries == map[]
  {
    if entries != map[] {
      var k :| k in entries;
      assert entries[k] in entries.Values;
    }
  }

  lemma ReferenceUnchanged(j: Job, refList: RefList, t: Name, shape: Shape, v: RefValue)
    requires AllFound(j, refList, t, Targets(v))
    requires v.Map? <==> shape == Keyed
    requires shape == One ==> |Targets(v)| <= 1
    ensures RefIsStable(j, refList, t, shape, v)
  {
    if Targets(v) == {} {
      if v.Map? {
        NoValues(v.entries);
      }
    } else if v.Map? {
      EntriesFound(j, refList, t, v.entries);
    } else if shape == One {
      SingleRow(j, refList, t, v.rows);
    } else {
      RowsFound(j, refList, t, v.rows);
    }
  }

  lemma EntriesFound(j: Job, refList: RefList, t: Name, entries: map<string, Uuid>)
    requires AllFound(j, refList, t, entries.Values)
    ensures RefTarget(j, refList, t, ReadRef(j.schema, j.base, Keyed, Map(entries))) == Map(entries)
    ensures Resolves(j, refList, t, ReadRef(j.schema, j.base, Keyed, Map(entries)))
  {
    var named := map k | k in entries :: IndexAt(j.schema, j.base, entries[k]);
    forall k | k in entries
      ensures FindRow(j, refList, t, named[k]) == Some(entries[k])
    {
      assert entries[k] in entries.Values;
    }
    assert ReadRef(j.schema, j.base, Keyed, Map(entries)) == IndexMap(named);
    FoundAgain(j, refList, t, named, entries);
  }

  lemma FoundAgain(j: Job, refList: RefList, t: Name, named: map<string, string>, entries: map<string, Uuid>)
    requires named.Keys == entries.Keys
    requires forall k :: k in entries ==> FindRow(j, refList, t, named[k]) == Some(entries[k])
    ensures RefTarget(j, refList, t, IndexMap(named)) == Map(entries)
    ensures Resolves(j, refList, t, IndexMap(named))
  {
    assert (map k | k in named :: Found(j, refList, t, named[k])) == entries;
  }

  lemma SingleRow(j: Job, refList: RefList, t: Name, rows: set<Uuid>)
    requires AllFound(j, refList, t, rows) && |rows| == 1
    ensures RefTarget(j, refList, t, ReadRef(j.schema, j.base, One, Rows(rows))) == Rows(rows)
    ensures Resolves(j, refList, t, ReadRef(j.schema, j.base, One, Rows(rows)))
  {
    var w :| w in rows && ReadRef(j.schema, j.base, One, Rows(rows)) == Index(IndexAt(j.schema, j.base, w));
    assert rows == {w} by {
      assert |rows - {w}| == 0;
    }
  }

  lemma RowsFound(j: Job, refList: RefList, t: Name, rows: set<Uuid>)
    requires AllFound(j, refList, t, rows)
    ensures RefTarget(j, refList, t, ReadRef(j.schema, j.base, Many, Rows(rows))) == Rows(rows)
    ensures Resolves(j, refList, t, ReadRef(j.schema, j.base, Many, Rows(rows)))
  {
    var indexes := set v | v in rows :: IndexAt(j.schema, j.base, v);
    assert ReadRef(j.schema, j.base, Many, Rows(rows)) == IndexSet(indexes);
    forall w | w in rows
      ensures w in set i | i in indexes :: Found(j, refList, t, i)
    {
      assert IndexAt(j.schema, j.base, w) in indexes;
    }
    assert (set i | i in indexes :: Found(j, refList, t, i)) == rows;
  }

  lemma ColumnRefsFound(j: Job, refList: RefList, u: Uuid, c: Name)
    requires IsReading(j) && u in j.base && j.base[u].table in j.schema.tables && IsConfigReference(j.schema.tables[j.base[u].table], c)
    ensures c in j.base[u].refs
    ensures var column := j.schema.tables[j.base[u].table].references[c];
            && AllFound(j, refList, column.refTable, Targets(j.base[u].refs[c]))
            && (j.base[u].refs[c].Map? <==> column.shape == Keyed)
            && (column.shape == One ==> |Targets(j.base[u].refs[c])| <= 1)
  {
    var t := j.base[u].table;
    assert ValidRow(j.schema, j.base[u]);
    assert ValidColumn(j.schema, t, c);
    var column, v := j.schema.tables[t].references[c], j.base[u].refs[c];
    forall w | w in Targets(v)
      ensures FindRow(j, refList, column.refTable, IndexAt(j.schema, j.base, w)) == Some(w)
    {
      assert ValidTarget(j.schema, j.base, u, c, w);
      CommittedRow(j, w);
      FoundByIndex(j, refList, column.refTable, w);
    }
  }

  /** Reference columns are given the rows they had. */
  lemma ReferencesUnchanged(j: Job, refList: RefList, p: Path, u: Uuid, c: Name)
    requires IsReading(j) && IsOld(j, p, u) && c in WrittenColumns(j, p)
    ensures u in j.base && c in j.base[u].refs && ColumnTarget(j, refList, p, c) == j.base[u].refs[c]
    ensures TableAt(j.schema, p) in j.schema.tables
    ensures c in DataAt(j, p).refs ==> Resolves(j, refList, j.schema.tables[TableAt(j.schema, p)].references[c].refTable, DataAt(j, p).refs[c])
  {
    var _ := ReadIsOld(j, p);
    var t := j.base[u].table;
    ReadRowIs(j.schema, j.base, t, u);
    ColumnRefsFound(j, refList, u, c);
    var column := j.schema.tables[t].references[c];
    ReferenceUnchanged(j, refList, column.refTable, column.shape, j.base[u].refs[c]);
  }

  // ---------- rows that were not read ----------

  /** Rows that were not read although they could be put up for deletion: those of top-level tables of
      which nothing was read, and those in child columns of rows that were. */
  ghost predicate Unread(j: Job, w: Uuid) {
    && w in j.base && !Claimed(j, w)
    && ((IsTopLevel(j.schema, j.base[w].table) && j.base[w].table !in j.root)
        || exists u, c :: Claimed(j, u) && IsChildOf(j.schema, j.base, u, c, w))
  }

  /** Trying to delete a row that was not read comes to nothing. */
  ghost predicate Quiet(j: Job)
    requires ValidGraph(GraphOf(j.schema, j.base))
  {
    var g := GraphOf(j.schema, j.base);
    forall w {:trigger Unread(j, w)} :: Unread(j, w) && w in g.deletable ==> PlanSet(g, w) == {}
  }

  /** Writing back is quiet exactly when all rows that were not read but could be deleted, and the rows
      reached from them through deletable children, contain a row that may not be deleted. */
  lemma QuietExactly(j: Job)
    requires InOrder(j) && ValidGraph(GraphOf(j.schema, j.base))
    ensures Quiet(j) <==>
            forall w, x {:trigger Unread(j, w), HoldsFast(j, x)} ::
              Unread(j, w) && w in GraphOf(j.schema, j.base).deletable && x in Reached(GraphOf(j.schema, j.base), w) ==> HoldsFast(j, x)
  {
    var g := GraphOf(j.schema, j.base);
    forall w, x | x in Reached(g, w)
      ensures x in PlanSet(g, w) <==> !HoldsFast(j, x)
    {
      NotPlannedExactly(j, w, x);
    }
    if !Quiet(j) {
      var w :| Unread(j, w) && w in g.deletable && PlanSet(g, w) != {};
      var x :| x in PlanSet(g, w);
      PlanIsReached(g, w, x);
      assert !HoldsFast(j, x);
    } else {
      forall w, x | Unread(j, w) && w in g.deletable && x in Reached(g, w)
        ensures HoldsFast(j, x)
      {
        assert x !in PlanSet(g, w);
      }
    }
  }

  lemma ChildUnread(j: Job, p: Path, u: Uuid, c: Name, w: Uuid)
    requires IsReading(j) && WellPosed(j) && IsOld(j, p, u) && IsChildOf(j.schema, j.base, u, c, w) && !Claimed(j, w)
    ensures Unread(j, w)
  {
    KidIsLower(j.schema, j.base, u, c, w);
    assert Claimed(j, u);
  }

  // ---------- child columns ----------

  /** An entry of a child column leads to the child that it was read from. */
  lemma EntryIsOld(j: Job, p: Path, u: Uuid, c: Name, k: string)
    requires IsReading(j) && WellPosed(j) && IsOld(j, p, u) && c in ChildColumns(j, p) && k in KeysAt(j, p, c)
    ensures var q := p + [Step(c, k)]; Live(j, q) && Exist(j, q).Some? && Exist(j, q).value in Targets(OldColumn(j, p, c))
    ensures var q := p + [Step(c, k)];
            OldColumn(j, p, c).Map? ==> k in OldColumn(j, p, c).entries && OldColumn(j, p, c).entries[k] == Exist(j, q).value
    ensures var q := p + [Step(c, k)];
            OldColumn(j, p, c).Rows? ==> Indexed(j.schema, j.base, Exist(j, q).value) && RowIndex(j.schema, j.base, Exist(j, q).value) == k
  {
    var q := p + [Step(c, k)];
    ChildPath(p, Step(c, k));
    assert NodeAt(j.root, q).Some?;
    ColumnOf(j, p, c, u);
    ReadEverywhere(j, q);
  }

  // ---------- deletions ----------

  /** What is dropped was not read, and could be deleted. */
  lemma DroppedIsUnread(j: Job, p: Path, c: Name, w: Uuid)
    requires IsReading(j) && WellPosed(j) && DroppedAt(j, p, c, w)
    ensures Unread(j, w) && w in GraphOf(j.schema, j.base).deletable
  {
    DroppedIsUnclaimed(j, p, c, w);
    if p != [] {
      var u := Exist(j, p).value;
      assert IsOld(j, p, u);
      ColumnOf(j, p, c, u);
      ChildUnread(j, p, u, c, w);
    }
  }

  lemma UnreadIsDropped(j: Job, w: Uuid) returns (at: Site)
    requires IsReading(j) && WellPosed(j) && Unread(j, w) && w in GraphOf(j.schema, j.base).deletable
    ensures at in AllSites(j) && DroppedAt(j, at.path, at.column, w)
  {
    if IsTopLevel(j.schema, j.base[w].table) && j.base[w].table !in j.root {
      at := At([], j.base[w].table);
    } else {
      var u, c :| Claimed(j, u) && IsChildOf(j.schema, j.base, u, c, w);
      var p :| IsOld(j, p, u);
      ExistingRow(j, p);
      at := At(p, c);
      UnreadChildIsDropped(j, p, u, c, w);
    }
  }

  lemma UnreadChildIsDropped(j: Job, p: Path, u: Uuid, c: Name, w: Uuid)
    requires IsReading(j) && WellPosed(j) && IsOld(j, p, u) && IsChildOf(j.schema, j.base, u, c, w) && !Claimed(j, w)
    requires w in GraphOf(j.schema, j.base).deletable && c in ChildColumns(j, p)
    ensures DroppedAt(j, p, c, w)
  {
    ColumnOf(j, p, c, u);
    if OldColumn(j, p, c).Rows? {
      UnclaimedIsUnnamed(j, p, u, c, w);
    } else {
      var entries := OldColumn(j, p, c).entries;
      var k :| k in entries && entries[k] == w;
      UnclaimedEntry(j, p, u, c, k);
    }
  }

  lemma UnclaimedIsUnnamed(j: Job, p: Path, u: Uuid, c: Name, w: Uuid)
    requires IsReading(j) && WellPosed(j) && IsOld(j, p, u) && IsChildOf(j.schema, j.base, u, c, w) && !Claimed(j, w)
    requires c in ChildColumns(j, p) && OldColumn(j, p, c).Rows?
    ensures !NamedIn(j.schema, j.base, w, KeysAt(j, p, c))
  {
    if NamedIn(j.schema, j.base, w, KeysAt(j, p, c)) {
      var k := RowIndex(j.schema, j.base, w);
      var q := p + [Step(c, k)];
      EntryIsOld(j, p, u, c, k);
      IndexLooksUp(j, w);
      IndexLooksUp(j, Exist(j, q).value);
      ColumnOf(j, p, c, u);
      KidIsLower(j.schema, j.base, u, c, w);
      KidIsLower(j.schema, j.base, u, c, Exist(j, q).value);
      assert IsOld(j, q, w);
    }
  }

  lemma UnclaimedEntry(j: Job, p: Path, u: Uuid, c: Name, k: string)
    requires IsReading(j) && WellPosed(j) && IsOld(j, p, u) && c in ChildColumns(j, p) && OldColumn(j, p, c).Map?
    requires k in OldColumn(j, p, c).entries && !Claimed(j, OldColumn(j, p, c).entries[k])
    ensures k !in KeysAt(j, p, c)
  {
    if k in KeysAt(j, p, c) {
      EntryIsOld(j, p, u, c, k);
      assert IsOld(j, p + [Step(c, k)], OldColumn(j, p, c).entries[k]);
    }
  }

  /** Nothing is put up for deletion exactly when all such attempts come to nothing. */
  lemma NothingDoomed(j: Job)
    requires IsReading(j) && WellPosed(j) && ValidGraph(GraphOf(j.schema, j.base))
    ensures Quiet(j) <==> forall v {:trigger Doomed(j, AllSites(j), v)} :: !Doomed(j, AllSites(j), v)
  {
    var g := GraphOf(j.schema, j.base);
    if Quiet(j) {
      forall v | Doomed(j, AllSites(j), v)
        ensures false
      {
        var at, w :| at in AllSites(j) && DroppedAt(j, at.path, at.column, w) && v in PlanSet(g, w);
        DroppedIsUnread(j, at.path, at.column, w);
      }
    } else {
      var w :| Unread(j, w) && w in g.deletable && PlanSet(g, w) != {};
      var v :| v in PlanSet(g, w);
      var at := UnreadIsDropped(j, w);
      assert Doomed(j, AllSites(j), v);
    }
  }

  // ---------- read, then write ----------

  /** What was read is in place already. */
  lemma ReadingIsAtRest(j: Job, refList: RefList)
    requires IsReading(j) && WellPosed(j)
    ensures AllAtRest(j, refList)
  {
    forall q | Live(j, q)
      ensures AtRest(j, refList, q)
    {
      var u := ReadIsOld(j, q);
      StartUnchanged(j, q, u);
      forall c | c in WrittenColumns(j, q)
        ensures c in j.base[u].refs && ColumnTarget(j, refList, q, c) == j.base[u].refs[c]
        ensures c in DataAt(j, q).refs ==> Resolves(j, refList, j.schema.tables[TableAt(j.schema, q)].references[c].refTable, DataAt(j, q).refs[c])
      {
        ReferencesUnchanged(j, refList, q, u, c);
      }
    }
  }

  /** A reading has nothing to write exactly when its writing is quiet. */
  lemma ReadingIsIdle(j: Job, refList: RefList)
    requires IsReading(j) && WellPosed(j) && ValidGraph(GraphOf(j.schema, j.base))
    ensures AllAtRest(j, refList) && (AllHoldFast(j) <==> Quiet(j))
  {
    ReadingIsAtRest(j, refList);
    NothingDoomed(j);
    NothingDoomedExactly(j);
  }

  /** Writing what was read creates and updates nothing; it deletes nothing, and leaves every row and
      reference as it was, exactly when no row that was not read can be deleted. */
  lemma ReadThenWrite(j: Job, refList: RefList, created: map<Path, Uuid>, creates: seq<ResourceOp>, updates: seq<ResourceOp>,
                      deletes: seq<ResourceOp>, rows: Db, resolved: bool)
    requires IsReading(j) && Prepared(j, refList, created, creates, updates, deletes, rows, resolved)
    ensures resolved && creates == [] && updates == []
    ensures deletes == [] <==> Quiet(j)
    ensures Quiet(j) ==> rows == j.base
  {
    ReadingIsWellPosed(j);
    ReadingIsIdle(j, refList);
    RestIsQuiet(j, refList, created, creates, updates, deletes, rows, resolved);
    NothingDeleted(j, created, creates, updates, deletes);
    IdleExactly(j, refList, created, creates, updates, deletes, rows, resolved);
  }
}
