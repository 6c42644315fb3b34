/** Recursive planning of row deletions (ops/_write.py, _delete_row and _delete_row_list). */
module Deletion {
  import opened Options
  import opened Database
  import opened Validation
  import opened Containment

  ghost function KidsOf(s: Schema, row: Row): set<Uuid> {
    set c, w | c in row.refs && row.table in s.tables && IsChildColumn(s.tables[row.table], c)
               && w in Targets(row.refs[c]) :: w
  }

  ghost function Level(s: Schema, t: Name): nat {
    if t in s.level then s.level[t] else 0
  }

  ghost function GraphOf(s: Schema, db: Db): Graph {
    Graph(map u | u in db :: KidsOf(s, db[u]),
          map u | u in db :: Level(s, db[u].table),
          set u | u in db && db[u].table in s.tables && DeleteCheck(s, db[u].table))
  }

  lemma KidIsLower(s: Schema, db: Db, u: Uuid, c: Name, w: Uuid)
    requires ValidSchema(s) && ValidDb(s, db) && IsChildOf(s, db, u, c, w)
    ensures w in db && db[w].table == s.tables[db[u].table].references[c].refTable
    ensures Level(s, db[w].table) < Level(s, db[u].table)
  {
    assert ValidRow(s, db[u]);
    assert ValidTarget(s, db, u, c, w);
    assert ValidColumn(s, db[u].table, c);
  }

  lemma KidsAreChildren(s: Schema, db: Db, u: Uuid, w: Uuid) returns (c: Name)
    requires u in db && w in KidsOf(s, db[u])
    ensures IsChildOf(s, db, u, c, w)
  {
    c :| c in db[u].refs && IsChildColumn(s.tables[db[u].table], c) && w in Targets(db[u].refs[c]);
  }

  lemma GraphIsValid(s: Schema, db: Db)
    requires ValidSchema(s) && ValidDb(s, db)
    ensures ValidGraph(GraphOf(s, db))
  {
    var g := GraphOf(s, db);
    forall u, w | u in g.kids && w in g.kids[u]
      ensures w in g.kids && g.rank[w] < g.rank[u]
    {
      var c := KidsAreChildren(s, db, u, w);
      KidIsLower(s, db, u, c, w);
    }
  }

  /** A row can be scheduled when the tables of all its children may be changed and are none of those with
      default rows. */
  lemma RemovableExactly(s: Schema, db: Db, v: Uuid)
    requires ValidSchema(s) && ValidDb(s, db) && v in db
    ensures Removable(GraphOf(s, db), v) <==>
            forall c, w :: IsChildOf(s, db, v, c, w) ==>
              w in db && db[w].table in s.tables && s.tables[db[w].table].mutable && db[w].table != "Bridge" && db[w].table != "VRF"
  {
    var g := GraphOf(s, db);
    assert ValidRow(s, db[v]);
    forall c, w | IsChildOf(s, db, v, c, w)
      ensures w in g.kids[v]
    {
    }
    forall w | w in g.kids[v]
      ensures exists c :: IsChildOf(s, db, v, c, w)
    {
      var c := KidsAreChildren(s, db, v, w);
    }
  }

  /** Tables whose rows may be deleted contain only such tables. */
  ghost predicate HereditarySchema(s: Schema) {
    forall t, c {:trigger ValidColumn(s, t, c)} :: t in s.tables && IsChildColumn(s.tables[t], c) && DeleteCheck(s, t) ==>
      s.tables[t].references[c].refTable in s.tables ==> DeleteCheck(s, s.tables[t].references[c].refTable)
  }

  /** Under such a schema deleting leaves no row without its owner. */
  lemma SchemaLeavesNoOrphans(s: Schema, db: Db, v: Uuid)
    requires ValidSchema(s) && ValidDb(s, db) && HereditarySchema(s)
    ensures ValidGraph(GraphOf(s, db)) && NoOrphans(GraphOf(s, db), v)
  {
    GraphIsValid(s, db);
    var g := GraphOf(s, db);
    forall u, w | Owns(g, u, w) && u in g.deletable
      ensures w in g.deletable
    {
      var c := KidsAreChildren(s, db, u, w);
      KidIsLower(s, db, u, c, w);
      assert ValidColumn(s, db[u].table, c);
    }
    HereditaryLeavesNoOrphans(g, v);
  }

  lemma GraphHasOneOwner(s: Schema, db: Db)
    requires ValidSchema(s) && ValidDb(s, db) && Forest(s, db)
    ensures OneOwner(GraphOf(s, db))
  {
    var g := GraphOf(s, db);
    forall u1, u2, w | u1 in g.kids && u2 in g.kids && w in g.kids[u1] && w in g.kids[u2]
      ensures u1 == u2
    {
      var c1 := KidsAreChildren(s, db, u1, w);
      var c2 := KidsAreChildren(s, db, u2, w);
    }
  }

  /** Nothing below `v` is contained in two places below `v`. */
  ghost predicate ForestBelow(s: Schema, db: Db, v: Uuid)
    requires ValidGraph(GraphOf(s, db))
  {
    forall u1, c1, u2, c2, w {:trigger IsChildOf(s, db, u1, c1, w), IsChildOf(s, db, u2, c2, w)} ::
      && u1 in Below(GraphOf(s, db), v) && u2 in Below(GraphOf(s, db), v)
      && IsChildOf(s, db, u1, c1, w) && IsChildOf(s, db, u2, c2, w)
      ==> u1 == u2 && c1 == c2
  }

  lemma ForestHasOneOwner(s: Schema, db: Db, v: Uuid)
    requires ValidGraph(GraphOf(s, db)) && ForestBelow(s, db, v)
    ensures OneOwnerBelow(GraphOf(s, db), v)
  {
    var g := GraphOf(s, db);
    forall u1, u2, w | u1 in Below(g, v) && u2 in Below(g, v) && Owns(g, u1, w) && Owns(g, u2, w)
      ensures u1 == u2
    {
      var c1 := KidsAreChildren(s, db, u1, w);
      var c2 := KidsAreChildren(s, db, u2, w);
    }
  }

  lemma ForestOfChild(s: Schema, db: Db, v: Uuid, w: Uuid)
    requires ValidGraph(GraphOf(s, db)) && ForestBelow(s, db, v) && Owns(GraphOf(s, db), v, w)
    ensures ForestBelow(s, db, w)
  {
    BelowChild(GraphOf(s, db), v, w);
  }

  /** The children of `v` in the columns `done`. */
  ghost function KidsIn(s: Schema, db: Db, v: Uuid, done: set<Name>): set<Uuid>
    requires v in db
  {
    set c, w | c in done && IsChildOf(s, db, v, c, w) && w in Targets(db[v].refs[c]) :: w
  }

  lemma ColumnKids(s: Schema, db: Db, v: Uuid, done: set<Name>, c: Name)
    requires ValidSchema(s) && ValidDb(s, db) && v in db && db[v].table in s.tables
    requires IsChildColumn(s.tables[db[v].table], c) && c in db[v].refs
    ensures KidsIn(s, db, v, done + {c}) == KidsIn(s, db, v, done) + Targets(db[v].refs[c])
    ensures KidsIn(s, db, v, done + {c}) <= GraphOf(s, db).kids[v]
    ensures var ct := s.tables[db[v].table].references[c].refTable;
            && ct in s.tables && Level(s, ct) < Level(s, db[v].table)
            && (forall w :: w in Targets(db[v].refs[c]) ==> w in db && db[w].table == ct)
            && (forall w :: w in Targets(db[v].refs[c]) ==> (w in GraphOf(s, db).deletable <==> DeleteCheck(s, ct)))
    ensures ValidGraph(GraphOf(s, db)) && ForestBelow(s, db, v) && c !in done ==> KidsIn(s, db, v, done) !! Targets(db[v].refs[c])
  {
    assert ValidColumn(s, db[v].table, c);
    forall w | w in Targets(db[v].refs[c])
      ensures IsChildOf(s, db, v, c, w) && w in db && db[w].table == s.tables[db[v].table].references[c].refTable
    {
      KidIsLower(s, db, v, c, w);
    }
    forall w | w in KidsIn(s, db, v, done) && w in Targets(db[v].refs[c]) && ValidGraph(GraphOf(s, db)) && ForestBelow(s, db, v)
      ensures c in done
    {
      assert v in Below(GraphOf(s, db), v);
      var d :| d in done && IsChildOf(s, db, v, d, w);
      assert IsChildOf(s, db, v, c, w);
    }
  }

  // ---------- the operations ----------

  /** The operation tells the table of its row, and the row that contains it, with its table. */
  ghost predicate Described(s: Schema, db: Db, op: ResourceOp) {
    && op.row in db && op.table == db[op.row].table
    && match op.parent
       case None => IsTopLevel(s, op.table)
       case Some(owner) =>
         && owner.row in db && owner.table == db[owner.row].table
         && exists c :: IsChildOf(s, db, owner.row, c, op.row)
  }

  /** An operation in the plan of row `v`, which itself is said to be contained in `parent`. */
  ghost predicate InPlan(s: Schema, db: Db, g: Graph, v: Uuid, parent: Option<Owner>, op: ResourceOp)
    requires ValidGraph(g) && v in db
  {
    if op.row == v then op == ResourceOp(v, db[v].table, parent)
    else Described(s, db, op) && op.parent.Some? && op.parent.value.row in Below(g, v)
  }

  ghost predicate InPlanOfAny(s: Schema, db: Db, g: Graph, targets: set<Uuid>, parent: Option<Owner>, op: ResourceOp)
    requires ValidGraph(g) && forall w :: w in targets ==> w in db
  {
    exists w :: w in targets && InPlan(s, db, g, w, parent, op)
  }

  ghost predicate InPlans(s: Schema, db: Db, g: Graph, targets: set<Uuid>, parent: Option<Owner>, ops: seq<ResourceOp>)
    requires ValidGraph(g) && forall w :: w in targets ==> w in db
  {
    forall op {:trigger InPlanOfAny(s, db, g, targets, parent, op)} :: op in ops ==> InPlanOfAny(s, db, g, targets, parent, op)
  }

  lemma InPlansAppend(s: Schema, db: Db, g: Graph, targets: set<Uuid>, parent: Option<Owner>, ops: seq<ResourceOp>, w: Uuid,
                      more: seq<ResourceOp>)
    requires ValidGraph(g) && (forall w :: w in targets ==> w in db) && InPlans(s, db, g, targets, parent, ops)
    requires w in targets && forall op :: op in more ==> InPlan(s, db, g, w, parent, op)
    ensures InPlans(s, db, g, targets, parent, ops + more)
  {
    forall op | op in ops + more
      ensures InPlanOfAny(s, db, g, targets, parent, op)
    {
      if op !in ops {
        assert InPlan(s, db, g, w, parent, op);
      }
    }
  }

  /** Operations in the plan of `v` on other rows. */
  ghost predicate BelowRow(s: Schema, db: Db, g: Graph, v: Uuid, ops: seq<ResourceOp>)
    requires ValidGraph(g) && v in db
  {
    forall op :: op in ops ==> InPlan(s, db, g, v, None, op) && op.row != v
  }

  lemma BelowRowAppend(s: Schema, db: Db, g: Graph, v: Uuid, a: seq<ResourceOp>, b: seq<ResourceOp>)
    requires ValidGraph(g) && v in db && BelowRow(s, db, g, v, a) && BelowRow(s, db, g, v, b)
    ensures BelowRow(s, db, g, v, a + b)
  {
  }

  lemma WholePlan(s: Schema, db: Db, g: Graph, v: Uuid, parent: Option<Owner>, ops: seq<ResourceOp>)
    requires ValidGraph(g) && v in db && BelowRow(s, db, g, v, ops)
    ensures forall op :: op in ops + [ResourceOp(v, db[v].table, parent)] ==> InPlan(s, db, g, v, parent, op)
  {
  }

  /** What is planned for children of `v` belongs to the plan of `v`. */
  lemma PlanOfChild(s: Schema, db: Db, g: Graph, v: Uuid, key: Name, w: Uuid, op: ResourceOp)
    requires ValidGraph(g) && g == GraphOf(s, db) && v in db && w in db && IsChildOf(s, db, v, key, w)
    requires InPlan(s, db, g, w, Some(Owner(v, db[v].table)), op) && op.row in Below(g, w)
    ensures InPlan(s, db, g, v, None, op) && op.row != v
  {
    assert Owns(g, v, w);
    BelowChild(g, v, w);
    BelowRank(g, w, op.row);
  }

  ghost predicate AllApart(s: Schema, db: Db, g: Graph, targets: set<Uuid>)
    requires ValidGraph(g) && g == GraphOf(s, db)
  {
    Scattered(g, targets) && forall w :: w in targets ==> ForestBelow(s, db, w)
  }

  /** What has been planned for `done`, a part of `targets`. */
  ghost predicate RowsPlanned(s: Schema, db: Db, g: Graph, targets: set<Uuid>, parent: Option<Owner>, done: set<Uuid>, ops: seq<ResourceOp>)
    requires ValidGraph(g) && g == GraphOf(s, db) && forall w :: w in targets ==> w in db
  {
    && RowsOf(ops) == PlanAll(g, done)
    && InPlans(s, db, g, targets, parent, ops)
    && (AllApart(s, db, g, targets) ==> PostOrder(g, ops))
  }

  lemma NextRowPlanned(s: Schema, db: Db, g: Graph, targets: set<Uuid>, parent: Option<Owner>, done: set<Uuid>, ops: seq<ResourceOp>,
                       w: Uuid, more: seq<ResourceOp>)
    requires ValidGraph(g) && g == GraphOf(s, db) && (forall w :: w in targets ==> w in db) && RowsPlanned(s, db, g, targets, parent, done, ops)
    requires done <= targets && w in targets && w !in done
    requires RowsOf(more) == PlanSet(g, w) && (forall op :: op in more ==> InPlan(s, db, g, w, parent, op))
    requires ForestBelow(s, db, w) ==> PostOrder(g, more)
    ensures RowsPlanned(s, db, g, targets, parent, done + {w}, ops + more)
  {
    if AllApart(s, db, g, targets) {
      ScatteredApart(g, targets, done, w);
    }
    AddPlan(g, done, ops, w, more);
    InPlansAppend(s, db, g, targets, parent, ops, w, more);
  }

  /** Plans the deletion of rows `targets` of table `t`, all contained in `parent`, and returns those that
      stay.  If no two of them have a row below them in common, the plan comes in post-order. */
  method DeleteRowList(s: Schema, db: Db, validator: ValidatorAdapter, targets: set<Uuid>, t: Name,
                       parent: Option<Owner>, ghost g: Graph)
    returns (notDeleted: set<Uuid>, ghost added: seq<ResourceOp>)
    requires ValidSchema(s) && ValidDb(s, db) && g == GraphOf(s, db) && ValidGraph(g)
    requires forall w :: w in targets ==> w in db && db[w].table == t
    modifies validator`creates, validator`updates, validator`deletes
    ensures validator.creates == old(validator.creates) && validator.updates == old(validator.updates)
    ensures validator.deletes == old(validator.deletes) + added
    ensures RowsOf(added) == PlanAll(g, targets)
    ensures notDeleted == set w | w in targets && !Removable(g, w)
    ensures InPlans(s, db, g, targets, parent, added)
    ensures AllApart(s, db, g, targets) ==> PostOrder(g, added)
    decreases Level(s, t), 2
  {
    notDeleted := {};
    added := [];
    var todo := targets;
    ghost var done: set<Uuid> := {};
    while todo != {}
      invariant done !! todo && done + todo == targets
      invariant validator.deletes == old(validator.deletes) + added
      invariant validator.creates == old(validator.creates) && validator.updates == old(validator.updates)
      invariant notDeleted == set w | w in done && !Removable(g, w)
      invariant RowsPlanned(s, db, g, targets, parent, done, added)
      decreases todo
    {
      var w :| w in todo;
      todo := todo - {w};
      var deleted, more := DeleteRow(s, db, validator, w, t, parent, g);
      if !deleted {
        notDeleted := notDeleted + {w};
      }
      NextRowPlanned(s, db, g, targets, parent, done, added, w, more);
      Regroup(old(validator.deletes), added, more);
      added := added + more;
      done := done + {w};
    }
  }

  lemma ColumnApart(s: Schema, db: Db, v: Uuid, done: set<Name>, c: Name, g: Graph)
    requires ValidSchema(s) && ValidDb(s, db) && v in db && db[v].table in s.tables
    requires IsChildColumn(s.tables[db[v].table], c) && c in db[v].refs && c !in done
    requires g == GraphOf(s, db) && ValidGraph(g)
    ensures Targets(db[v].refs[c]) * g.deletable <= g.kids[v]
    ensures KidsIn(s, db, v, done + {c}) == KidsIn(s, db, v, done) + Targets(db[v].refs[c])
    ensures ForestBelow(s, db, v) ==> Apart(g, KidsIn(s, db, v, done) * g.deletable, Targets(db[v].refs[c]) * g.deletable)
  {
    ColumnKids(s, db, v, done, c);
    var a, b := KidsIn(s, db, v, done) * g.deletable, Targets(db[v].refs[c]) * g.deletable;
    assert a <= g.kids[v] && b <= g.kids[v];
    if ForestBelow(s, db, v) {
      ForestHasOneOwner(s, db, v);
      assert a !! b;
      SiblingsApart(g, v, a, b);
    }
  }

  lemma ColumnList(s: Schema, db: Db, v: Uuid, c: Name, ct: Name, column: set<Uuid>, deleteList: set<Uuid>, g: Graph)
    requires ValidSchema(s) && ValidDb(s, db) && v in db && db[v].table in s.tables
    requires IsChildColumn(s.tables[db[v].table], c) && c in db[v].refs
    requires ct == s.tables[db[v].table].references[c].refTable && column == Targets(db[v].refs[c])
    requires ct in s.tables && deleteList == set w | w in column && DeleteCheck(s, ct)
    requires g == GraphOf(s, db) && ValidGraph(g)
    ensures Level(s, ct) < Level(s, db[v].table)
    ensures deleteList == column * g.deletable
    ensures |column| <= |deleteList| <==> column <= g.deletable
    ensures v in g.kids && column <= g.kids[v]
    ensures forall w :: w in column ==> w in db && db[w].table == ct
  {
    ColumnKids(s, db, v, {}, c);
    CountedCheck(column, g.deletable);
  }

  lemma ColumnScattered(s: Schema, db: Db, v: Uuid, rows: set<Uuid>)
    requires ValidGraph(GraphOf(s, db)) && ForestBelow(s, db, v) && v in GraphOf(s, db).kids && rows <= GraphOf(s, db).kids[v]
    ensures AllApart(s, db, GraphOf(s, db), rows)
  {
    ForestHasOneOwner(s, db, v);
    SiblingsScattered(GraphOf(s, db), v, rows);
    forall w | w in rows
      ensures ForestBelow(s, db, w)
    {
      ForestOfChild(s, db, v, w);
    }
  }

  lemma ColumnOperations(s: Schema, db: Db, g: Graph, v: Uuid, key: Name, rows: set<Uuid>, added: seq<ResourceOp>)
    requires ValidSchema(s) && ValidDb(s, db) && g == GraphOf(s, db) && ValidGraph(g)
    requires v in db && forall w :: w in rows ==> w in db && IsChildOf(s, db, v, key, w)
    requires RowsOf(added) == PlanAll(g, rows)
    requires InPlans(s, db, g, rows, Some(Owner(v, db[v].table)), added)
    ensures BelowRow(s, db, g, v, added)
  {
    forall op | op in added
      ensures InPlan(s, db, g, v, None, op) && op.row != v
    {
      assert InPlanOfAny(s, db, g, rows, Some(Owner(v, db[v].table)), op);
      var w :| w in rows && InPlan(s, db, g, w, Some(Owner(v, db[v].table)), op);
      if op.row != w {
        OwnedIsBelow(s, db, g, w, op);
      }
      PlanOfChild(s, db, g, v, key, w, op);
    }
  }

  lemma OwnedIsBelow(s: Schema, db: Db, g: Graph, w: Uuid, op: ResourceOp)
    requires ValidSchema(s) && ValidDb(s, db) && g == GraphOf(s, db) && ValidGraph(g)
    requires Described(s, db, op) && op.parent.Some? && op.parent.value.row in Below(g, w)
    ensures op.row in Below(g, w)
  {
    var u := op.parent.value.row;
    var c :| IsChildOf(s, db, u, c, op.row);
    assert Owns(g, u, op.row);
    BelowGoesOn(g, w, u, op.row);
  }

  /** Plans the deletion of the children of `v` in column `key`. */
  method DeleteColumn(s: Schema, db: Db, validator: ValidatorAdapter, v: Uuid, key: Name, ghost g: Graph)
    returns (allListed: bool, ghost added: seq<ResourceOp>)
    requires ValidSchema(s) && ValidDb(s, db) && g == GraphOf(s, db) && ValidGraph(g)
    requires v in db && db[v].table in s.tables && IsChildColumn(s.tables[db[v].table], key) && key in db[v].refs
    modifies validator`creates, validator`updates, validator`deletes
    ensures validator.creates == old(validator.creates) && validator.updates == old(validator.updates)
    ensures validator.deletes == old(validator.deletes) + added
    ensures RowsOf(added) == PlanAll(g, Targets(db[v].refs[key]) * g.deletable)
    ensures allListed == (Targets(db[v].refs[key]) <= g.deletable)
    ensures BelowRow(s, db, g, v, added)
    ensures ForestBelow(s, db, v) ==> PostOrder(g, added)
    decreases Level(s, db[v].table), 0
  {
    var childTable := s.tables[db[v].table].references[key].refTable;
    var childReferences := Targets(db[v].refs[key]);
    assert ValidColumn(s, db[v].table, key);
    var deleteList := set w | w in childReferences && DeleteCheck(s, childTable);
    ColumnList(s, db, v, key, childTable, childReferences, deleteList, g);
    allListed := |childReferences| <= |deleteList|;
    if deleteList != {} {
      var _, more := DeleteRowList(s, db, validator, deleteList, childTable, Some(Owner(v, db[v].table)), g);
      added := more;
      ColumnOperations(s, db, g, v, key, deleteList, added);
      if ForestBelow(s, db, v) {
        ColumnScattered(s, db, v, deleteList);
      }
    } else {
      EmptyPlan(g);
      added := [];
    }
  }

  /** What has been planned for the children of `v` in columns `done`. */
  ghost predicate ColumnsPlanned(s: Schema, db: Db, g: Graph, v: Uuid, done: set<Name>, ops: seq<ResourceOp>)
    requires ValidGraph(g) && g == GraphOf(s, db) && v in db
  {
    && RowsOf(ops) == PlanAll(g, KidsIn(s, db, v, done) * g.deletable)
    && BelowRow(s, db, g, v, ops)
    && (ForestBelow(s, db, v) ==> PostOrder(g, ops))
  }

  lemma NextColumnPlanned(s: Schema, db: Db, g: Graph, v: Uuid, done: set<Name>, ops: seq<ResourceOp>, key: Name, more: seq<ResourceOp>)
    requires ValidSchema(s) && ValidDb(s, db) && g == GraphOf(s, db) && ValidGraph(g) && v in db && db[v].table in s.tables
    requires IsChildColumn(s.tables[db[v].table], key) && key in db[v].refs && key !in done
    requires ColumnsPlanned(s, db, g, v, done, ops)
    requires RowsOf(more) == PlanAll(g, Targets(db[v].refs[key]) * g.deletable) && BelowRow(s, db, g, v, more)
    requires ForestBelow(s, db, v) ==> PostOrder(g, more)
    ensures ColumnsPlanned(s, db, g, v, done + {key}, ops + more)
    ensures KidsIn(s, db, v, done + {key}) == KidsIn(s, db, v, done) + Targets(db[v].refs[key])
  {
    ColumnApart(s, db, v, done, key, g);
    ColumnPlanned(g, KidsIn(s, db, v, done), ops, Targets(db[v].refs[key]), more);
    BelowRowAppend(s, db, g, v, ops, more);
  }

  /** Plans the deletion of row `v` and of all its children that may be deleted; the row is only
      scheduled when all its direct children may be. */
  method DeleteRow(s: Schema, db: Db, validator: ValidatorAdapter, v: Uuid, t: Name, parent: Option<Owner>, ghost g: Graph)
    returns (delete: bool, ghost added: seq<ResourceOp>)
    requires ValidSchema(s) && ValidDb(s, db) && g == GraphOf(s, db) && ValidGraph(g)
    requires v in db && db[v].table == t
    modifies validator`creates, validator`updates, validator`deletes
    ensures validator.creates == old(validator.creates) && validator.updates == old(validator.updates)
    ensures validator.deletes == old(validator.deletes) + added
    ensures RowsOf(added) == PlanSet(g, v)
    ensures delete == Removable(g, v)
    ensures forall op :: op in added ==> InPlan(s, db, g, v, parent, op)
    ensures ForestBelow(s, db, v) ==> PostOrder(g, added)
    decreases Level(s, t), 1
  {
    assert ValidRow(s, db[v]);
    var ts := s.tables[t];
    delete := true;
    added := [];
    var todo := set c | c in ts.references && ts.references[c].relation == Child;
    ghost var done: set<Name>, children := {}, todo;
    while todo != {}
      invariant done !! todo && done + todo == children
      invariant validator.deletes == old(validator.deletes) + added
      invariant validator.creates == old(validator.creates) && validator.updates == old(validator.updates)
      invariant delete == (KidsIn(s, db, v, done) <= g.deletable)
      invariant ColumnsPlanned(s, db, g, v, done, added)
      decreases todo
    {
      var key :| key in todo;
      todo := todo - {key};
      var allListed, more := DeleteColumn(s, db, validator, v, key, g);
      NextColumnPlanned(s, db, g, v, done, added, key, more);
      if delete {
        delete := allListed;
      }
      Regroup(old(validator.deletes), added, more);
      added := added + more;
      done := done + {key};
    }
    AllKids(s, db, v, done);
    ClosePlan(g, v, added, ResourceOp(v, t, parent));
    WholePlan(s, db, g, v, parent, added);
    if delete {
      validator.AddResourceOp(DELETE, v, t, parent);
      Regroup(old(validator.deletes), added, [ResourceOp(v, t, parent)]);
      added := added + [ResourceOp(v, t, parent)];
    }
  }

  lemma ColumnPlanned(g: Graph, kids: set<Uuid>, plan: seq<ResourceOp>, column: set<Uuid>, more: seq<ResourceOp>)
    requires ValidGraph(g)
    requires RowsOf(plan) == PlanAll(g, kids * g.deletable) && RowsOf(more) == PlanAll(g, column * g.deletable)
    ensures RowsOf(plan + more) == PlanAll(g, (kids + column) * g.deletable)
    ensures PostOrder(g, plan) && PostOrder(g, more) && Apart(g, kids * g.deletable, column * g.deletable) ==> PostOrder(g, plan + more)
  {
    AddPlans(g, kids * g.deletable, plan, column * g.deletable, more);
    assert (kids + column) * g.deletable == kids * g.deletable + column * g.deletable;
  }

  lemma Regroup(a: seq<ResourceOp>, b: seq<ResourceOp>, c: seq<ResourceOp>)
    ensures a + b + c == a + (b + c)
  {
  }

  lemma CountedCheck(column: set<Uuid>, deletable: set<Uuid>)
    ensures |column| <= |column * deletable| <==> column <= deletable
  {
    if |column| <= |column * deletable| {
      SameSize(column * deletable, column);
    } else {
      assert column * deletable != column;
    }
  }

  lemma SameSize(a: set<Uuid>, b: set<Uuid>)
    requires a <= b && |b| <= |a|
    ensures a == b
  {
    assert |b - a| == |b| - |a|;
  }

  lemma AllKids(s: Schema, db: Db, v: Uuid, done: set<Name>)
    requires v in db && ValidRow(s, db[v])
    requires done == set c | c in s.tables[db[v].table].references && s.tables[db[v].table].references[c].relation == Child
    ensures KidsIn(s, db, v, done) == KidsOf(s, db[v])
  {
    forall w | w in KidsOf(s, db[v])
      ensures w in KidsIn(s, db, v, done)
    {
      var c := KidsAreChildren(s, db, v, w);
      assert IsChildOf(s, db, v, c, w) && c in done;
    }
  }
}
