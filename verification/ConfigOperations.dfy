/** What the validators are told of a write. */
module ConfigOperations {
  import opened Database
  import opened Validation
  import opened Containment
  import opened Deletion
  import opened ConfigTree
  import opened ConfigTarget
  import opened ConfigDropped
  import opened ConfigTables
  import opened ConfigRefs
  import opened ConfigOutcome
  import opened ConfigTheorems

  /** The operations that the validators see: the rows created, the named rows whose configuration
      columns change, and the rows put up for deletion, each once, with its table and owner. */
  ghost predicate Scheduled(j: Job, created: map<Path, Uuid>, creates: seq<ResourceOp>, updates: seq<ResourceOp>, deletes: seq<ResourceOp>)
    requires ValidGraph(GraphOf(j.schema, j.base))
  {
    && Recorded(j, created, creates, updates, deletes) && Distinct(deletes)
    && RowsOf(creates) == created.Values
    && (forall q, r {:trigger IsOld(j, q, r)} :: IsOld(j, q, r) ==> (r in RowsOf(updates) <==> Changed(j, q)))
    && (forall r {:trigger r in RowsOf(updates)} :: r in RowsOf(updates) ==> Claimed(j, r))
    && (forall v {:trigger v in RowsOf(deletes)} :: v in RowsOf(deletes) <==> Doomed(j, AllSites(j), v))
  }

  /** An operation for each row that is new, for each whose configuration columns differ, and for those to
      be deleted: every row is listed once, with its own table and with the row that contains it, as the
      rows are after the write, and with rows to be deleted as they were committed. */
  ghost predicate Reported(s: Schema, base: Db, rows: Db, creates: seq<ResourceOp>, updates: seq<ResourceOp>, deletes: seq<ResourceOp>) {
    && Distinct(creates) && Distinct(updates) && Distinct(deletes)
    && RowsOf(creates) == rows.Keys - base.Keys
    && RowsOf(updates) == (set r | r in base && r in rows && rows[r].config != base[r].config)
    && (forall op {:trigger Described(s, rows, op)} :: op in creates || op in updates ==> Described(s, rows, op))
    && (forall op {:trigger Described(s, base, op)} :: op in deletes ==> Described(s, base, op))
    && (forall op {:trigger Protected(s, op.table)} :: op in deletes ==> !Protected(s, op.table))
    && (forall op {:trigger Protected(s, op.table)} :: op in creates && Protected(s, op.table) ==>
          op.table in s.tables && s.tables[op.table].indexes == [])
  }

  /** No rows of the table are deleted: it is not to be changed, or it is one of those with default rows. */
  ghost predicate Protected(s: Schema, t: Name) {
    t !in s.tables || !s.tables[t].mutable || t == "Bridge" || t == "VRF"
  }

  lemma PlacedTarget(j: Job, created: map<Path, Uuid>, p: Path, c: Name, k: string)
    requires k in NewChildren(j, created, p, c)
    ensures NewChildren(j, created, p, c)[k] in Targets(TargetColumn(j, created, p, c))
  {
    var children := NewChildren(j, created, p, c);
    assert children[k] in children.Values;
    if OldColumn(j, p, c).Map? {
      var all := TargetColumn(j, created, p, c).entries;
      assert all[k] in all.Values;
    }
  }

  /** The row of a location is contained in that of the location above. */
  lemma ContainedInOwner(j: Job, refList: RefList, created: map<Path, Uuid>, deletes: set<Uuid>, rows: Db, q: Path)
    requires WellPosed(j) && ValidGraph(GraphOf(j.schema, j.base)) && Leaves(j, refList, created, deletes, {}, rows)
    requires Live(j, q) && |q| > 1
    ensures Live(j, Parent(q))
    ensures IsChildOf(j.schema, rows, Place(j, created, Parent(q)), Last(q).column, Place(j, created, q))
  {
    var p, c, k := Parent(q), Last(q).column, Last(q).key;
    LiveParent(j, q);
    StepBelow(j, p, q);
    assert q == p + [Step(c, k)];
    assert FinalAt(j, refList, created, rows, p);
    FinalShape(j, refList, created, p);
    FinalChildColumn(j, refList, created, p, c);
    assert k in NewChildren(j, created, p, c);
    PlacedTarget(j, created, p, c, k);
  }

  lemma PlaceIs(j: Job, refList: RefList, created: map<Path, Uuid>, deletes: set<Uuid>, rows: Db, q: Path)
    requires WellPosed(j) && ValidGraph(GraphOf(j.schema, j.base)) && Leaves(j, refList, created, deletes, {}, rows) && Live(j, q)
    ensures Place(j, created, q) in rows && rows[Place(j, created, q)].table == TableAt(j.schema, q)
    ensures rows[Place(j, created, q)].config == StartRow(j, q).config
    ensures |q| == 1 ==> IsTopLevel(j.schema, TableAt(j.schema, q))
  {
    assert FinalAt(j, refList, created, rows, q);
    FinalShape(j, refList, created, q);
    if |q| == 1 {
      LocationsTable(j, q);
    }
  }

  lemma LocationDescribed(j: Job, refList: RefList, created: map<Path, Uuid>, deletes: set<Uuid>, rows: Db, q: Path, op: ResourceOp)
    requires WellPosed(j) && ValidGraph(GraphOf(j.schema, j.base)) && Leaves(j, refList, created, deletes, {}, rows) && Live(j, q)
    requires op.row == Place(j, created, q) && op.table == TableAt(j.schema, q) && OwnerIs(j, created, q, op.parent)
    ensures Described(j.schema, rows, op)
  {
    PlaceIs(j, refList, created, deletes, rows, q);
    if |q| > 1 {
      ContainedInOwner(j, refList, created, deletes, rows, q);
      PlaceIs(j, refList, created, deletes, rows, Parent(q));
    }
  }

  lemma CreatesDescribed(j: Job, refList: RefList, created: map<Path, Uuid>, creates: seq<ResourceOp>, updates: seq<ResourceOp>,
                         deletes: seq<ResourceOp>, rows: Db, op: ResourceOp)
    requires WellPosed(j) && ValidGraph(GraphOf(j.schema, j.base)) && Scheduled(j, created, creates, updates, deletes)
    requires Leaves(j, refList, created, RowsOf(deletes), {}, rows) && (op in creates || op in updates)
    ensures Described(j.schema, rows, op)
  {
    if op in creates {
      assert NewOp(j, created, op);
      var q :| q in created && op.row == created[q] && op.table == TableAt(j.schema, q) && OwnerIs(j, created, q, op.parent);
      LocationDescribed(j, refList, created, RowsOf(deletes), rows, q, op);
    } else {
      assert OldOp(j, created, op);
      var q :| IsOld(j, q, op.row) && op.table == TableAt(j.schema, q) && OwnerIs(j, created, q, op.parent);
      LocationDescribed(j, refList, created, RowsOf(deletes), rows, q, op);
    }
  }

  lemma NewRowsListed(j: Job, refList: RefList, created: map<Path, Uuid>, deletes: set<Uuid>, rows: Db)
    requires WellPosed(j) && ValidGraph(GraphOf(j.schema, j.base)) && Leaves(j, refList, created, deletes, {}, rows)
    ensures created.Values == rows.Keys - j.base.Keys
  {
    forall v | v in created.Values
      ensures v in rows && v !in j.base
    {
      var q :| q in created && created[q] == v;
      PlaceIs(j, refList, created, deletes, rows, q);
    }
  }

  lemma ChangedRowsListed(j: Job, refList: RefList, created: map<Path, Uuid>, creates: seq<ResourceOp>, updates: seq<ResourceOp>,
                          deletes: seq<ResourceOp>, rows: Db, r: Uuid)
    requires WellPosed(j) && ValidGraph(GraphOf(j.schema, j.base)) && Scheduled(j, created, creates, updates, deletes)
    requires Leaves(j, refList, created, RowsOf(deletes), {}, rows)
    ensures r in RowsOf(updates) <==> r in j.base && r in rows && rows[r].config != j.base[r].config
  {
    if Claimed(j, r) {
      var q :| IsOld(j, q, r);
      ExistingRow(j, q);
      PlaceIs(j, refList, created, RowsOf(deletes), rows, q);
    } else if r in j.base {
      assert Untold(j, {}, rows, r);
    }
  }

  /** What is planned may be deleted. */
  lemma DoomedIsDeletable(j: Job, v: Uuid)
    requires WellPosed(j) && ValidGraph(GraphOf(j.schema, j.base)) && Doomed(j, AllSites(j), v)
    ensures v in j.base && !Protected(j.schema, j.base[v].table)
  {
    var g := GraphOf(j.schema, j.base);
    var at, w :| at in AllSites(j) && DroppedAt(j, at.path, at.column, w) && v in PlanSet(g, w);
    DroppedIsDeletable(j, at, w);
    PlannedIsDeletable(g, w, v);
    DeletableIs(j, v);
  }

  lemma DeletableIs(j: Job, v: Uuid)
    requires v in GraphOf(j.schema, j.base).deletable
    ensures v in j.base && !Protected(j.schema, j.base[v].table)
  {
  }

  lemma PlannedIsDeletable(g: Graph, w: Uuid, v: Uuid)
    requires ValidGraph(g) && w in g.deletable && v in PlanSet(g, w)
    ensures v in g.deletable
  {
    PlanIsReached(g, w, v);
    ReachedIsDeletable(g, w, v);
  }

  lemma DroppedIsDeletable(j: Job, at: Site, w: Uuid)
    requires WellPosed(j) && DroppedAt(j, at.path, at.column, w)
    ensures w in GraphOf(j.schema, j.base).deletable
  {
    DroppedIsUnclaimed(j, at.path, at.column, w);
  }

  lemma {:induction false} ReachedIsDeletable(g: Graph, w: Uuid, v: Uuid)
    requires ValidGraph(g) && w in g.deletable && v in Reached(g, w)
    ensures v in g.deletable
    decreases if w in g.rank then g.rank[w] else 0
  {
    if v != w {
      var x :| x in g.kids[w] && x in g.deletable && v in Reached(g, x);
      ReachedIsDeletable(g, x, v);
    }
  }

  lemma NewIsInsertable(j: Job, created: map<Path, Uuid>, creates: seq<ResourceOp>, updates: seq<ResourceOp>, deletes: seq<ResourceOp>,
                        refList: RefList, rows: Db, op: ResourceOp)
    requires WellPosed(j) && ValidGraph(GraphOf(j.schema, j.base)) && Scheduled(j, created, creates, updates, deletes)
    requires Leaves(j, refList, created, RowsOf(deletes), {}, rows) && op in creates && Protected(j.schema, op.table)
    ensures op.table in j.schema.tables && j.schema.tables[op.table].indexes == []
  {
    assert NewOp(j, created, op);
    var q :| q in created && op.row == created[q] && op.table == TableAt(j.schema, q) && OwnerIs(j, created, q, op.parent);
    assert IsNew(j, q);
  }

  /** What is scheduled is what the validators should hear of. */
  lemma ScheduledIsReported(j: Job, refList: RefList, created: map<Path, Uuid>, creates: seq<ResourceOp>, updates: seq<ResourceOp>,
                            deletes: seq<ResourceOp>, rows: Db)
    requires WellPosed(j) && ValidGraph(GraphOf(j.schema, j.base)) && Scheduled(j, created, creates, updates, deletes)
    requires Leaves(j, refList, created, RowsOf(deletes), {}, rows)
    ensures Reported(j.schema, j.base, rows, creates, updates, deletes)
  {
    NewRowsListed(j, refList, created, RowsOf(deletes), rows);
    forall r
      ensures r in RowsOf(updates) <==> r in j.base && r in rows && rows[r].config != j.base[r].config
    {
      ChangedRowsListed(j, refList, created, creates, updates, deletes, rows, r);
    }
    forall op | op in creates || op in updates
      ensures Described(j.schema, rows, op)
    {
      CreatesDescribed(j, refList, created, creates, updates, deletes, rows, op);
    }
    forall op | op in deletes
      ensures !Protected(j.schema, op.table)
    {
      assert Described(j.schema, j.base, op) && op.row in RowsOf(deletes);
      DoomedIsDeletable(j, op.row);
    }
    forall op | op in creates && Protected(j.schema, op.table)
      ensures op.table in j.schema.tables && j.schema.tables[op.table].indexes == []
    {
      NewIsInsertable(j, created, creates, updates, deletes, refList, rows, op);
    }
  }
}
