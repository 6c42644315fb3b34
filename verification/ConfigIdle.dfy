/** A write that has nothing to do. */
module ConfigIdle {
  import opened Database
  import opened Validation
  import opened Containment
  import opened Deletion
  import opened ConfigTree
  import opened ConfigTarget
  import opened ConfigDropped
  import opened ConfigTables
  import opened ConfigRefs
  import opened ConfigOutcome
  import opened ConfigOperations
  import opened ConfigSession

  /** The location has its row, which has the columns and references that the data asks for. */
  ghost predicate AtRest(j: Job, refList: RefList, p: Path) {
    && Exist(j, p).Some? && Exist(j, p).value in j.base
    && !Changed(j, p)
    && RowResolves(j, refList, p)
    && (forall c {:trigger ColumnTarget(j, refList, p, c)} :: c in WrittenColumns(j, p) ==>
          c in j.base[Exist(j, p).value].refs && ColumnTarget(j, refList, p, c) == j.base[Exist(j, p).value].refs[c])
  }

  ghost predicate AllAtRest(j: Job, refList: RefList) {
    forall p {:trigger AtRest(j, refList, p)} :: Live(j, p) ==> AtRest(j, refList, p)
  }

  /** The row contains one whose table does not let it be deleted. */
  ghost predicate HoldsFast(j: Job, x: Uuid) {
    exists c, y :: IsChildOf(j.schema, j.base, x, c, y) && y in j.base && j.base[y].table in j.schema.tables
                   && !DeleteCheck(j.schema, j.base[y].table)
  }

  /** Whatever is dropped, and what is reached from it through deletable children, contains a row that
      may not be deleted. */
  ghost predicate AllHoldFast(j: Job)
    requires ValidGraph(GraphOf(j.schema, j.base))
  {
    forall at, w, x {:trigger DroppedAt(j, at.path, at.column, w), HoldsFast(j, x)} ::
      at in AllSites(j) && DroppedAt(j, at.path, at.column, w) && x in Reached(GraphOf(j.schema, j.base), w) ==> HoldsFast(j, x)
  }

  /** There is nothing to do: a condition on replica and configuration alone. */
  ghost predicate Idle(j: Job, refList: RefList)
    requires ValidGraph(GraphOf(j.schema, j.base))
  {
    AllAtRest(j, refList) && AllHoldFast(j)
  }

  // ---------- deletions ----------

  lemma HoldsFastExactly(j: Job, x: Uuid)
    requires ValidSchema(j.schema) && ValidDb(j.schema, j.base) && x in j.base
    ensures HoldsFast(j, x) <==> !Removable(GraphOf(j.schema, j.base), x)
  {
    var g := GraphOf(j.schema, j.base);
    if HoldsFast(j, x) {
      var c, y :| IsChildOf(j.schema, j.base, x, c, y) && y in j.base && j.base[y].table in j.schema.tables
                  && !DeleteCheck(j.schema, j.base[y].table);
      assert y in g.kids[x];
    }
    if !Removable(g, x) {
      var y :| y in g.kids[x] && y !in g.deletable;
      var c := KidsAreChildren(j.schema, j.base, x, y);
      KidIsLower(j.schema, j.base, x, c, y);
      assert ValidRow(j.schema, j.base[y]);
    }
  }

  lemma NotPlannedExactly(j: Job, w: Uuid, x: Uuid)
    requires ValidSchema(j.schema) && ValidDb(j.schema, j.base) && ValidGraph(GraphOf(j.schema, j.base))
    requires x in Reached(GraphOf(j.schema, j.base), w)
    ensures x in PlanSet(GraphOf(j.schema, j.base), w) <==> !HoldsFast(j, x)
  {
    PlanIsReached(GraphOf(j.schema, j.base), w, x);
    ReachedIsBelow(GraphOf(j.schema, j.base), w, x);
    HoldsFastExactly(j, x);
  }

  lemma NothingDoomedExactly(j: Job)
    requires WellPosed(j) && ValidGraph(GraphOf(j.schema, j.base))
    ensures AllHoldFast(j) <==> forall v {:trigger Doomed(j, AllSites(j), v)} :: !Doomed(j, AllSites(j), v)
  {
    var g := GraphOf(j.schema, j.base);
    if AllHoldFast(j) {
      forall v | Doomed(j, AllSites(j), v)
        ensures false
      {
        var at, w :| at in AllSites(j) && DroppedAt(j, at.path, at.column, w) && v in PlanSet(g, w);
        PlanIsReached(g, w, v);
        NotPlannedExactly(j, w, v);
      }
    } else {
      var at, w, x :| at in AllSites(j) && DroppedAt(j, at.path, at.column, w) && x in Reached(g, w) && !HoldsFast(j, x);
      NotPlannedExactly(j, w, x);
      assert Doomed(j, AllSites(j), x);
    }
  }

  lemma NoOps(ops: seq<ResourceOp>)
    ensures ops == [] <==> RowsOf(ops) == {}
  {
    if ops != [] {
      assert ops[0].row in RowsOf(ops);
    }
  }

  lemma NothingDeleted(j: Job, created: map<Path, Uuid>, creates: seq<ResourceOp>, updates: seq<ResourceOp>, deletes: seq<ResourceOp>)
    requires WellPosed(j) && ValidGraph(GraphOf(j.schema, j.base)) && Scheduled(j, created, creates, updates, deletes)
    ensures deletes == [] <==> AllHoldFast(j)
  {
    NoOps(deletes);
    NothingDoomedExactly(j);
    assert RowsOf(deletes) == {} ==> forall v {:trigger Doomed(j, AllSites(j), v)} :: Doomed(j, AllSites(j), v) ==> v in RowsOf(deletes);
  }

  // ---------- child columns ----------

  /** A child that is not named stays if it, like all that is dropped, holds fast. */
  lemma UnnamedIsKept(j: Job, p: Path, c: Name, w: Uuid)
    requires WellPosed(j) && ValidGraph(GraphOf(j.schema, j.base)) && AllHoldFast(j)
    requires Live(j, p) && Exist(j, p).Some? && c in ChildColumns(j, p)
    requires w in Dropped(j.schema, j.base, OldColumn(j, p, c), KeysAt(j, p, c))
    ensures Kept(GraphOf(j.schema, j.base), w)
  {
    var at := At(p, c);
    assert at in AllSites(j) && DroppedAt(j, at.path, at.column, w);
    if w in GraphOf(j.schema, j.base).kids {
      assert w in Reached(GraphOf(j.schema, j.base), w);
      HoldsFastExactly(j, w);
    }
  }

  lemma RemainderUnchanged(j: Job, p: Path, c: Name)
    requires WellPosed(j) && ValidGraph(GraphOf(j.schema, j.base)) && AllHoldFast(j)
    requires Live(j, p) && Exist(j, p).Some? && c in ChildColumns(j, p)
    ensures Remainder(j.schema, j.base, OldColumn(j, p, c), KeysAt(j, p, c)) == OldColumn(j, p, c)
  {
    var g, keys := GraphOf(j.schema, j.base), KeysAt(j, p, c);
    forall w | w in Dropped(j.schema, j.base, OldColumn(j, p, c), keys)
      ensures Kept(g, w)
    {
      UnnamedIsKept(j, p, c, w);
    }
    match OldColumn(j, p, c)
    case Rows(rows) =>
      assert forall w :: w in rows && !NamedIn(j.schema, j.base, w, keys) && w in g.deletable ==> Kept(g, w);
      assert (set w | w in rows && (NamedIn(j.schema, j.base, w, keys) || Kept(g, w))) == rows;
    case Map(entries) =>
      assert forall k :: k in entries && k !in keys && entries[k] in g.deletable ==> Kept(g, entries[k]);
      assert (map k | k in entries && (k in keys || Kept(g, entries[k])) :: entries[k]) == entries;
  }

  lemma AddsNothing(column: RefValue, children: map<string, Uuid>)
    requires forall k :: k in children ==> children[k] in Targets(column)
    requires column.Map? ==> forall k :: k in children ==> k in column.entries && column.entries[k] == children[k]
    ensures AddRows(column, children) == column
  {
    match column
    case Rows(rows) =>
      assert rows + children.Values == rows;
    case Map(entries) =>
      assert entries + children == entries;
  }

  /** A named child is in the column already, under its own key. */
  lemma NamedIsThere(j: Job, refList: RefList, p: Path, c: Name, k: string)
    requires WellPosed(j) && AllAtRest(j, refList)
    requires Live(j, p) && c in ChildColumns(j, p) && k in KeysAt(j, p, c) && Live(j, p + [Step(c, k)])
    ensures var v, column := Place(j, map[], p + [Step(c, k)]), OldColumn(j, p, c);
            v in Targets(column) && (column.Map? ==> k in column.entries && column.entries[k] == v)
  {
    var q := p + [Step(c, k)];
    ChildPath(p, Step(c, k));
    assert AtRest(j, refList, p) && AtRest(j, refList, q);
    ExistingChild(j, q);
    var u := Exist(j, p).value;
    assert IsOld(j, p, u);
    ColumnOf(j, p, c, u);
    assert ValidRow(j.schema, j.base[u]);
  }

  /** What is left of a child column and what is set up in it make the column as it was. */
  lemma ChildrenUnchanged(j: Job, refList: RefList, p: Path, c: Name)
    requires WellPosed(j) && ValidGraph(GraphOf(j.schema, j.base)) && Idle(j, refList)
    requires Live(j, p) && c in ChildColumns(j, p)
    ensures TargetColumn(j, map[], p, c) == OldColumn(j, p, c)
  {
    assert AtRest(j, refList, p);
    var column, children := OldColumn(j, p, c), NewChildren(j, map[], p, c);
    forall k | k in children
      ensures children[k] in Targets(column) && (column.Map? ==> k in column.entries && column.entries[k] == children[k])
    {
      NamedIsThere(j, refList, p, c, k);
    }
    RemainderUnchanged(j, p, c);
    AddsNothing(column, children);
  }

  // ---------- whole rows ----------

  lemma SameRow(a: Row, b: Row)
    requires a.(refs := b.refs) == b && a.refs.Keys == b.refs.Keys && forall c :: c in b.refs ==> a.refs[c] == b.refs[c]
    ensures a == b
  {
    assert a.refs == b.refs;
  }

  lemma StartUnchanged(j: Job, refList: RefList, p: Path)
    requires WellPosed(j) && Live(j, p) && AtRest(j, refList, p)
    ensures StartRow(j, p) == j.base[Exist(j, p).value]
  {
    ExistingRow(j, p);
    assert Fits(j, p);
  }

  lemma RowUnchanged(j: Job, refList: RefList, p: Path)
    requires WellPosed(j) && ValidGraph(GraphOf(j.schema, j.base)) && Idle(j, refList) && Live(j, p)
    ensures Exist(j, p).Some? && Exist(j, p).value in j.base
    ensures FinalRow(j, refList, map[], p) == j.base[Exist(j, p).value]
  {
    assert AtRest(j, refList, p);
    StartUnchanged(j, refList, p);
    var u := Exist(j, p).value;
    forall c | c in j.base[u].refs
      ensures FinalRow(j, refList, map[], p).refs[c] == j.base[u].refs[c]
    {
      if c !in WrittenColumns(j, p) && c in ChildColumns(j, p) {
        ChildrenUnchanged(j, refList, p, c);
      }
    }
    SameRow(FinalRow(j, refList, map[], p), j.base[u]);
  }

  lemma SameDb(a: Db, b: Db)
    requires a.Keys <= b.Keys && forall u :: u in b ==> u in a && a[u] == b[u]
    ensures a == b
  {
  }

  lemma OnlyCommitted(j: Job, refList: RefList, deletes: set<Uuid>, rows: Db)
    requires ValidGraph(GraphOf(j.schema, j.base)) && Leaves(j, refList, map[], deletes, {}, rows)
    ensures rows.Keys <= j.base.Keys
  {
  }

  lemma RowsUnchanged(j: Job, refList: RefList, deletes: set<Uuid>, rows: Db)
    requires WellPosed(j) && ValidGraph(GraphOf(j.schema, j.base)) && Idle(j, refList)
    requires Leaves(j, refList, map[], deletes, {}, rows)
    ensures rows == j.base
  {
    forall u | u in j.base
      ensures u in rows && rows[u] == j.base[u]
    {
      if Claimed(j, u) {
        var p :| IsOld(j, p, u);
        assert FinalAt(j, refList, map[], rows, p);
        RowUnchanged(j, refList, p);
      } else {
        assert Untold(j, {}, rows, u);
      }
    }
    OnlyCommitted(j, refList, deletes, rows);
    SameDb(rows, j.base);
  }

  // ---------- nothing to do, nothing done ----------

  lemma RestIsQuiet(j: Job, refList: RefList, created: map<Path, Uuid>, creates: seq<ResourceOp>, updates: seq<ResourceOp>,
                    deletes: seq<ResourceOp>, rows: Db, resolved: bool)
    requires WellPosed(j) && Prepared(j, refList, created, creates, updates, deletes, rows, resolved) && AllAtRest(j, refList)
    ensures resolved && creates == [] && updates == [] && created == map[]
  {
    forall q | q in AllLocations(j)
      ensures RowResolves(j, refList, q)
    {
      assert AtRest(j, refList, q);
    }
    assert forall q :: IsNew(j, q) ==> !AtRest(j, refList, q);
    assert created == map[];
    NoOps(creates);
    NoOps(updates);
    forall q, r | IsOld(j, q, r)
      ensures r !in RowsOf(updates)
    {
      assert AtRest(j, refList, q);
    }
    assert RowsOf(updates) == {};
  }

  lemma NothingCreated(j: Job, refList: RefList, created: map<Path, Uuid>, creates: seq<ResourceOp>, updates: seq<ResourceOp>,
                       deletes: seq<ResourceOp>, rows: Db)
    requires WellPosed(j) && Prepared(j, refList, created, creates, updates, deletes, rows, true) && creates == []
    ensures forall q :: Live(j, q) ==> Exist(j, q).Some? && Exist(j, q).value in j.base
  {
    NoOps(creates);
    assert forall q :: q in created ==> created[q] in created.Values;
    forall q | Live(j, q)
      ensures Exist(j, q).Some? && Exist(j, q).value in j.base
    {
      assert IsNew(j, q) ==> q in created;
      ExistingRow(j, q);
    }
  }

  lemma QuietIsRest(j: Job, refList: RefList, created: map<Path, Uuid>, creates: seq<ResourceOp>, updates: seq<ResourceOp>,
                    deletes: seq<ResourceOp>, rows: Db, p: Path)
    requires WellPosed(j) && Prepared(j, refList, created, creates, updates, deletes, rows, true)
    requires creates == [] && updates == [] && rows == j.base && Live(j, p)
    ensures AtRest(j, refList, p)
  {
    NothingCreated(j, refList, created, creates, updates, deletes, rows);
    var u := Exist(j, p).value;
    assert IsOld(j, p, u) && RowsOf(updates) == {};
    assert p in AllLocations(j);
    assert FinalAt(j, refList, created, rows, p);
    FinalShape(j, refList, created, p);
    forall c | c in WrittenColumns(j, p)
      ensures c in j.base[u].refs && ColumnTarget(j, refList, p, c) == j.base[u].refs[c]
    {
      assert c in FinalRow(j, refList, created, p).refs;
    }
  }

  /** A write schedules no operation and leaves every row and reference as it was exactly when it has
      nothing to do. */
  lemma IdleExactly(j: Job, refList: RefList, created: map<Path, Uuid>, creates: seq<ResourceOp>, updates: seq<ResourceOp>,
                    deletes: seq<ResourceOp>, rows: Db, resolved: bool)
    requires WellPosed(j) && Prepared(j, refList, created, creates, updates, deletes, rows, resolved)
    ensures resolved && creates == [] && updates == [] && deletes == [] && rows == j.base <==> Idle(j, refList)
  {
    NothingDeleted(j, created, creates, updates, deletes);
    if Idle(j, refList) {
      RestIsQuiet(j, refList, created, creates, updates, deletes, rows, resolved);
      RowsUnchanged(j, refList, RowsOf(deletes), rows);
    } else if resolved && creates == [] && updates == [] && deletes == [] && rows == j.base {
      forall p | Live(j, p)
        ensures AtRest(j, refList, p)
      {
        QuietIsRest(j, refList, created, creates, updates, deletes, rows, p);
      }
    }
  }
}
