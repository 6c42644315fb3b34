/** The single changes a write is made of, each shown to keep the invariant of the write. */
module ConfigStages {
  import opened Options
  import opened Database
  import opened Validation
  import opened Containment
  import opened Deletion
  import opened ConfigTree
  import opened ConfigTarget
  import opened ConfigDropped

  ghost function SitesOf(j: Job, region: iset<Path>): iset<Site> {
    iset at: Site | at.path in region && at.column in ChildColumns(j, at.path)
  }

  ghost function OwnSites(p: Path, columns: set<Name>): iset<Site> {
    iset at: Site | at.path == p && at.column in columns
  }

  lemma SitesUnion(j: Job, a: iset<Path>, b: iset<Path>)
    ensures SitesOf(j, a + b) == SitesOf(j, a) + SitesOf(j, b)
  {
  }

  lemma RowSites(j: Job, p: Path)
    requires WellPosed(j) && Live(j, p)
    ensures SitesOf(j, RowRegion(j, p)) == SitesOf(j, ColumnsRegion(j, p, ChildColumns(j, p))) + OwnSites(p, ChildColumns(j, p))
  {
    AllColumns(j, p);
  }

  // ---------- composing stages ----------

  lemma StagesCompose(j: Job, a: State, b: State, c: State, r1: iset<Path>, r2: iset<Path>, touched: iset<Path>,
                      s1: iset<Site>, s2: iset<Site>)
    requires WellPosed(j) && ValidGraph(GraphOf(j.schema, j.base))
    requires Stage(j, a, b, r1, touched, s1) && Stage(j, b, c, r2, touched, s2)
    requires DownClosed(j, r1) && r1 !! r2 && r1 !! touched && s1 !! s2
    ensures Stage(j, a, c, r1 + r2, touched, s1 + s2)
  {
    forall q | q in r1
      ensures BuiltAt(j, c.rows, c.created, q)
    {
      assert BuiltAt(j, b.rows, b.created, q);
      assert SameAt(j, b.created, b.rows, c.rows, q);
      forall step | IsNew(j, q + [step])
        ensures q + [step] in b.created
      {
      }
      CreatedExtends(j, b, c, r2, touched, s2);
      BuiltStable(j, b.created, c.created, q);
    }
    forall q | q !in r1 + r2 && q !in touched && Placed(j, a.created, q)
      ensures SameAt(j, a.created, a.rows, c.rows, q)
    {
      assert SameAt(j, a.created, a.rows, b.rows, q);
      assert q in a.created ==> q in b.created;
      assert SameAt(j, b.created, b.rows, c.rows, q);
    }
    forall v
      ensures c.deletes[v] == a.deletes[v] + if Doomed(j, s1 + s2, v) then 1 else 0
    {
      DoomedUnion(j, s1, s2, v);
      DoomedApart(j, s1, s2, v);
      assert b.deletes[v] == a.deletes[v] + if Doomed(j, s1, v) then 1 else 0;
    }
  }

  // ---------- opening a row ----------

  /** From `a` to `b` the row at `p` has been found or created and its configuration columns set. */
  ghost predicate Opened(j: Job, a: State, b: State, p: Path) {
    && Inv(j, b)
    && (forall v {:trigger v in b.rows} :: v in a.rows ==> v in b.rows)
    && (forall q {:trigger q in b.created} :: q in b.created <==> q in a.created || (q == p && IsNew(j, q)))
    && (forall q {:trigger b.created[q]} :: q in a.created && q in b.created ==> b.created[q] == a.created[q])
    && SameElsewhere(j, a.created, a.rows, b.rows, p)
    && (forall q, r {:trigger IsOld(j, q, r)} :: IsOld(j, q, r) ==>
          (r in b.updates <==> if q == p then Changed(j, q) else r in a.updates))
    && b.deletes == a.deletes
    && b.labels == a.labels
  }

  ghost predicate SameElsewhere(j: Job, created: map<Path, Uuid>, rows: Db, after: Db, p: Path) {
    forall q {:trigger SameAt(j, created, rows, after, q)} ::
      q != p && Placed(j, created, q) ==> SameAt(j, created, rows, after, q)
  }

  // ---------- where rows are ----------

  lemma PlacedRow(j: Job, st: State, q: Path)
    requires WellPosed(j) && Inv(j, st) && Placed(j, st.created, q)
    ensures Place(j, st.created, q) in st.rows
    ensures st.rows[Place(j, st.created, q)].table == TableAt(j.schema, q)
    ensures TableAt(j.schema, q) in j.schema.tables
    ensures Place(j, st.created, q) in j.base <==> Exist(j, q).Some?
  {
    assert Fits(j, q);
    if Exist(j, q).Some? {
      ExistingRow(j, q);
      assert OldRow(j, st.rows, Exist(j, q).value);
    } else {
      assert CreatedRow(j, st.rows, st.refList, st.created, q);
    }
  }

  /** Different locations have different rows. */
  lemma PlacesDiffer(j: Job, st: State, p: Path, q: Path)
    requires WellPosed(j) && Inv(j, st) && Placed(j, st.created, p) && Placed(j, st.created, q) && p != q
    ensures Place(j, st.created, p) != Place(j, st.created, q)
  {
    PlacedRow(j, st, p);
    PlacedRow(j, st, q);
    if Exist(j, p).Some? && Exist(j, p) == Exist(j, q) {
      ExistInjective(j, p, q);
    } else if Exist(j, p).None? && Exist(j, q).None? {
      var x, y := st.created[p], st.created[q];
    }
  }

  // ---------- replacing a row ----------

  /** A valid row that refers to rows of the right tables. */
  ghost predicate FitsIn(s: Schema, db: Db, row: Row) {
    && ValidRow(s, row)
    && (forall c, v {:trigger TargetFits(s, db, row, c, v)} :: c in row.refs && v in Targets(row.refs[c]) ==>
          TargetFits(s, db, row, c, v))
  }

  ghost predicate TargetFits(s: Schema, db: Db, row: Row, c: Name, v: Uuid) {
    && v in db
    && row.table in s.tables && c in s.tables[row.table].references
    && db[v].table == s.tables[row.table].references[c].refTable
  }

  lemma ReplaceRow(s: Schema, db: Db, u: Uuid, row: Row)
    requires ValidDb(s, db) && FitsIn(s, db, row)
    requires u in db ==> row.table == db[u].table
    ensures ValidDb(s, db[u := row])
  {
    var after := db[u := row];
    forall x | x in after
      ensures ValidRow(s, after[x])
    {
      if x != u {
        assert ValidRow(s, db[x]);
      }
    }
    forall x, c, v | x in after && c in after[x].refs && v in Targets(after[x].refs[c])
      ensures ValidTarget(s, after, x, c, v)
    {
      if x != u {
        assert ValidTarget(s, db, x, c, v);
      } else {
        assert TargetFits(s, db, row, c, v);
      }
    }
  }

  lemma OldRowFits(j: Job, rows: Db, r: Uuid, row: Row)
    requires WellPosed(j) && RowsInv(j, rows) && r in j.base && ValidRow(j.schema, row)
    requires row.table == j.base[r].table && row.refs == j.base[r].refs
    ensures FitsIn(j.schema, rows, row)
  {
    forall c, v | c in row.refs && v in Targets(row.refs[c])
      ensures TargetFits(j.schema, rows, row, c, v)
    {
      assert ValidTarget(j.schema, j.base, r, c, v);
      assert OldRow(j, rows, v);
    }
  }

  lemma ReplaceKeepsOld(j: Job, rows: Db, u: Uuid, row: Row)
    requires RowsInv(j, rows) && FitsIn(j.schema, rows, row)
    requires u in rows ==> row.table == rows[u].table && row.internal == rows[u].internal
    requires u in j.base ==> Claimed(j, u)
    ensures RowsInv(j, rows[u := row])
  {
    ReplaceRow(j.schema, rows, u, row);
    forall v | v in j.base
      ensures OldRow(j, rows[u := row], v)
    {
      assert OldRow(j, rows, v);
    }
  }

  lemma ReplaceKeepsCreated(j: Job, rows: Db, refList: map<(Name, string), Uuid>, created: map<Path, Uuid>, u: Uuid, row: Row)
    requires CreatedInv(j, rows, refList, created) && u in rows && row.table == rows[u].table
    ensures CreatedInv(j, rows[u := row], refList, created)
  {
    forall q | q in created
      ensures CreatedRow(j, rows[u := row], refList, created, q)
    {
      assert CreatedRow(j, rows, refList, created, q);
    }
  }

  /** The row of one location changes, the rows of all others stay. */
  lemma ReplacePlaced(j: Job, st: State, p: Path, row: Row)
    requires WellPosed(j) && Inv(j, st) && Placed(j, st.created, p) && FitsIn(j.schema, st.rows, row)
    requires Place(j, st.created, p) in st.rows
    requires row.table == st.rows[Place(j, st.created, p)].table
    requires row.internal == st.rows[Place(j, st.created, p)].internal
    ensures Inv(j, st.(rows := st.rows[Place(j, st.created, p) := row]))
    ensures SameElsewhere(j, st.created, st.rows, st.rows[Place(j, st.created, p) := row], p)
  {
    var u := Place(j, st.created, p);
    PlacedRow(j, st, p);
    if Exist(j, p).Some? {
      assert IsOld(j, p, u);
    }
    ReplaceKeepsOld(j, st.rows, u, row);
    ReplaceKeepsCreated(j, st.rows, st.refList, st.created, u, row);
    ReplaceElsewhere(j, st, p, row);
  }

  lemma ReplaceElsewhere(j: Job, st: State, p: Path, row: Row)
    requires WellPosed(j) && Inv(j, st) && Placed(j, st.created, p)
    ensures SameElsewhere(j, st.created, st.rows, st.rows[Place(j, st.created, p) := row], p)
  {
    forall q | q != p && Placed(j, st.created, q)
      ensures SameAt(j, st.created, st.rows, st.rows[Place(j, st.created, p) := row], q)
    {
      PlacedRow(j, st, q);
      PlacesDiffer(j, st, p, q);
    }
  }

  // ---------- opening a row ----------

  lemma TargetConfigValid(ts: TableSchema, was: map<Name, Value>, data: map<Name, Value>)
    requires was.Keys == ts.config.Keys && Indexable(ts, was) && Indexable(ts, data)
    ensures TargetConfig(ts, was, data).Keys == ts.config.Keys
    ensures Indexable(ts, TargetConfig(ts, was, data))
  {
  }

  lemma OldStartRow(j: Job, p: Path, r: Uuid)
    requires WellPosed(j) && IsOld(j, p, r)
    ensures r in j.base && ValidRow(j.schema, StartRow(j, p))
    ensures StartRow(j, p) == j.base[r].(config := StartRow(j, p).config)
    ensures j.base[r].table == TableAt(j.schema, p)
  {
    assert Fits(j, p);
    ExistingRow(j, p);
    assert ValidRow(j.schema, j.base[r]);
    var t := TableAt(j.schema, p);
    TargetConfigValid(j.schema.tables[t], j.base[r].config, DataAt(j, p).config);
  }

  lemma InitialConfigValid(ts: TableSchema, data: map<Name, Value>)
    requires forall i {:trigger ts.indexes[i]} :: 0 <= i < |ts.indexes| ==> ts.indexes[i] in ts.config
    requires ts.indexes != [] ==> Indexable(ts, data)
    ensures InitialConfig(ts, data).Keys == ts.config.Keys && Indexable(ts, InitialConfig(ts, data))
  {
  }

  /** A row that is inserted: columns take the value that is named or their initial one, references are empty. */
  lemma InitialRowExactly(s: Schema, t: Name, data: Data)
    requires t in s.tables
    ensures var row := InitialRow(s, t, data);
            && row.table == t && !row.internal
            && row.config.Keys == s.tables[t].config.Keys && row.refs.Keys == s.tables[t].references.Keys
            && (forall c :: c in row.config ==> row.config[c] == (if c in data.config then data.config[c] else s.tables[t].config[c].initial))
            && (forall c :: c in row.refs ==> row.refs[c] == if s.tables[t].references[c].shape == Keyed then Map(map[]) else Rows({}))
    ensures InsertCheck(s, t) <==> s.tables[t].indexes == [] || (s.tables[t].mutable && t != "Bridge" && t != "VRF")
  {
  }

  lemma NewStartRow(j: Job, p: Path)
    requires WellPosed(j) && IsNew(j, p)
    ensures TableAt(j.schema, p) in j.schema.tables
    ensures StartRow(j, p) == InitialRow(j.schema, TableAt(j.schema, p), DataAt(j, p))
    ensures ValidRow(j.schema, StartRow(j, p))
    ensures forall c :: c in StartRow(j, p).refs ==> Targets(StartRow(j, p).refs[c]) == {}
  {
    assert Fits(j, p);
    var t := TableAt(j.schema, p);
    assert ValidTable(j.schema, t);
    InitialConfigValid(j.schema.tables[t], DataAt(j, p).config);
  }

  /** An existing row gets its configuration columns and, if they changed, an UPDATE. */
  lemma OpenOldRow(j: Job, a: State, b: State, p: Path, r: Uuid)
    requires WellPosed(j) && Inv(j, a) && IsOld(j, p, r) && Untouched(j, a, RowRegion(j, p))
    requires b == a.(rows := a.rows[r := StartRow(j, p)], updates := if Changed(j, p) then a.updates + {r} else a.updates)
    ensures Opened(j, a, b, p)
  {
    assert p in RowRegion(j, p) && r !in a.updates;
    OldRowOpened(j, a, p, r);
    MarkUpdate(j, a.updates, b.updates, p, r);
    assert Claimed(j, r);
  }

  lemma OldRowOpened(j: Job, a: State, p: Path, r: Uuid)
    requires WellPosed(j) && Inv(j, a) && IsOld(j, p, r) && r in a.rows && r in j.base && a.rows[r] == j.base[r]
    ensures Inv(j, a.(rows := a.rows[r := StartRow(j, p)]))
    ensures SameElsewhere(j, a.created, a.rows, a.rows[r := StartRow(j, p)], p)
  {
    OldStartRow(j, p, r);
    OldRowFits(j, a.rows, r, StartRow(j, p));
    ReplacePlaced(j, a, p, StartRow(j, p));
  }

  lemma MarkUpdate(j: Job, before: set<Uuid>, after: set<Uuid>, p: Path, r: Uuid)
    requires WellPosed(j) && IsOld(j, p, r) && r !in before
    requires after == if Changed(j, p) then before + {r} else before
    ensures forall q, x {:trigger IsOld(j, q, x)} :: IsOld(j, q, x) ==>
              (x in after <==> if q == p then Changed(j, q) else x in before)
  {
    forall q, x | IsOld(j, q, x)
      ensures x in after <==> if q == p then Changed(j, q) else x in before
    {
      if q != p && x == r {
        ExistInjective(j, p, q);
      }
    }
  }

  /** A row is inserted, entered in the lists and recorded for the validators. */
  lemma NewRowOpened(j: Job, a: State, b: State, p: Path, data: Data, u: Uuid, parent: Option<Owner>,
                     creates: seq<ResourceOp>, updates: seq<ResourceOp>, deletes: seq<ResourceOp>)
    requires WellPosed(j) && Inv(j, a) && IsNew(j, p) && NodeAt(j.root, p) == Some(data) && u !in a.rows
    requires p !in a.created && TableAt(j.schema, p) in j.schema.tables
    requires b == a.(rows := a.rows[u := InitialRow(j.schema, TableAt(j.schema, p), data)], created := a.created[p := u], creates := a.creates + {u},
                     refList := a.refList[(TableAt(j.schema, p), Last(p).key) := u])
    requires Recorded(j, a.created, creates, updates, deletes) && RowsOf(creates) == a.creates && OwnerIs(j, a.created, p, parent)
    ensures Opened(j, a, b, p) && Placed(j, b.created, p) && u == Place(j, b.created, p)
    ensures u in b.rows && b.rows[u] == PartialRow(j, b.created, p, {})
    ensures Recorded(j, b.created, creates + [ResourceOp(u, TableAt(j.schema, p), parent)], updates, deletes)
  {
    NewStartRow(j, p);
    OpenNewRow(j, a, b, p, u);
    PartialStart(j, b.created, p);
    NewRowRecorded(j, a, p, u, parent, creates, updates, deletes);
  }

  lemma NewRowRecorded(j: Job, a: State, p: Path, u: Uuid, parent: Option<Owner>,
                       creates: seq<ResourceOp>, updates: seq<ResourceOp>, deletes: seq<ResourceOp>)
    requires Inv(j, a) && p !in a.created && u !in a.rows
    requires Recorded(j, a.created, creates, updates, deletes) && RowsOf(creates) == a.creates && OwnerIs(j, a.created, p, parent)
    ensures Recorded(j, a.created[p := u], creates + [ResourceOp(u, TableAt(j.schema, p), parent)], updates, deletes)
  {
    assert forall q :: q in a.created ==> CreatedRow(j, a.rows, a.refList, a.created, q);
    NewRecord(j, a.created, p, u, parent, creates, updates, deletes);
  }

  /** A committed row is brought up to date and, if it changes, recorded for the validators. */
  lemma CommittedRowOpened(j: Job, a: State, b: State, p: Path, u: Uuid, parent: Option<Owner>,
                     creates: seq<ResourceOp>, updates: seq<ResourceOp>, deletes: seq<ResourceOp>, after: seq<ResourceOp>)
    requires WellPosed(j) && Inv(j, a) && IsOld(j, p, u) && Untouched(j, a, RowRegion(j, p)) && p in RowRegion(j, p)
    requires b == a.(rows := a.rows[u := StartRow(j, p)], updates := if Changed(j, p) then a.updates + {u} else a.updates)
    requires Recorded(j, a.created, creates, updates, deletes) && RowsOf(updates) == a.updates && OwnerIs(j, a.created, p, parent)
    requires after == updates + if Changed(j, p) then [ResourceOp(u, TableAt(j.schema, p), parent)] else []
    ensures Opened(j, a, b, p) && Placed(j, b.created, p) && u == Place(j, b.created, p)
    ensures u in b.rows && b.rows[u] == PartialRow(j, b.created, p, {})
    ensures Recorded(j, b.created, creates, after, deletes)
  {
    OpenOldRow(j, a, b, p, u);
    PartialStart(j, b.created, p);
    if Changed(j, p) {
      OldRecord(j, a.created, p, u, parent, creates, updates, deletes);
    } else {
      assert after == updates;
    }
  }

  /** A new row is inserted, remembered under its index and put up as a CREATE. */
  lemma OpenNewRow(j: Job, a: State, b: State, p: Path, v: Uuid)
    requires WellPosed(j) && Inv(j, a) && IsNew(j, p) && p !in a.created && v !in a.rows
    requires b == a.(rows := a.rows[v := StartRow(j, p)], created := a.created[p := v], creates := a.creates + {v},
                     refList := a.refList[(TableAt(j.schema, p), Last(p).key) := v])
    ensures Opened(j, a, b, p)
  {
    NewRowInv(j, a, b, p, v);
    NewRowElsewhere(j, a, p, v);
  }

  lemma NewRowInv(j: Job, a: State, b: State, p: Path, v: Uuid)
    requires WellPosed(j) && Inv(j, a) && IsNew(j, p) && p !in a.created && v !in a.rows
    requires b == a.(rows := a.rows[v := StartRow(j, p)], created := a.created[p := v], creates := a.creates + {v},
                     refList := a.refList[(TableAt(j.schema, p), Last(p).key) := v])
    ensures Inv(j, b)
  {
    assert v in j.base ==> OldRow(j, a.rows, v);
    NewStartRow(j, p);
    ReplaceKeepsOld(j, a.rows, v, StartRow(j, p));
    NewRowCreated(j, a, p, v);
    LabelsStay(j, a, p, v);
    NewValues(a.created, p, v);
  }

  lemma LabelsStay(j: Job, a: State, p: Path, v: Uuid)
    requires LabelsInv(j, a.created, a.labels) && p !in a.created
    ensures LabelsInv(j, a.created[p := v], a.labels)
  {
    forall q | q in a.labels
      ensures Labelled(j, a.created[p := v], a.labels, q)
    {
      assert Labelled(j, a.created, a.labels, q);
    }
  }

  lemma NewRowElsewhere(j: Job, a: State, p: Path, v: Uuid)
    requires WellPosed(j) && Inv(j, a) && v !in a.rows
    ensures SameElsewhere(j, a.created, a.rows, a.rows[v := StartRow(j, p)], p)
  {
    forall q | q != p && Placed(j, a.created, q)
      ensures SameAt(j, a.created, a.rows, a.rows[v := StartRow(j, p)], q)
    {
      PlacedRow(j, a, q);
    }
  }

  lemma NewValues(created: map<Path, Uuid>, p: Path, v: Uuid)
    requires p !in created
    ensures created[p := v].Values == created.Values + {v}
  {
    var b := created[p := v];
    assert b[p] == v;
    forall x | x in created.Values
      ensures x in b.Values
    {
      var q :| q in created && created[q] == x;
      assert b[q] == x;
    }
  }

  lemma NewRowCreated(j: Job, a: State, p: Path, v: Uuid)
    requires WellPosed(j) && Inv(j, a) && IsNew(j, p) && p !in a.created && v !in a.rows && v !in j.base
    requires StartRow(j, p).table == TableAt(j.schema, p)
    ensures CreatedInv(j, a.rows[v := StartRow(j, p)], a.refList[(TableAt(j.schema, p), Last(p).key) := v], a.created[p := v])
  {
    var rows, created := a.rows[v := StartRow(j, p)], a.created[p := v];
    var refList := a.refList[(TableAt(j.schema, p), Last(p).key) := v];
    forall q | q in created
      ensures CreatedRow(j, rows, refList, created, q)
    {
      if q != p {
        assert CreatedRow(j, a.rows, a.refList, a.created, q);
        assert SameIndex(j, p, q) ==> p == q;
      }
    }
    forall x, y | x in created && y in created && created[x] == created[y]
      ensures x == y
    {
      if x != p {
        assert CreatedRow(j, a.rows, a.refList, a.created, x);
      }
      if y != p {
        assert CreatedRow(j, a.rows, a.refList, a.created, y);
      }
      if x != p && y != p {
        assert a.created[x] == a.created[y];
      }
    }
    NewValues(a.created, p, v);
  }

  // ---------- child columns ----------

  /** Until its entries are written, a child column holds rows as committed. */
  lemma ColumnChildSame(j: Job, st: State, p: Path, c: Name, u: Uuid, w: Uuid)
    requires WellPosed(j) && Inv(j, st) && Untouched(j, st, ColumnsRegion(j, p, {c}))
    requires IsOld(j, p, u) && IsChildOf(j.schema, j.base, u, c, w)
    ensures w in j.base && w in st.rows && st.rows[w] == j.base[w]
  {
    KidIsLower(j.schema, j.base, u, c, w);
    assert OldRow(j, st.rows, w);
    if Claimed(j, w) {
      var q :| IsOld(j, q, w);
      ClaimedChild(j, p, u, c, w, q);
      assert q in ColumnsRegion(j, p, {c});
    }
  }

  // ---------- deletions ----------

  ghost predicate Alike(g: Graph, g': Graph, x: Uuid) {
    && x in g.kids && x in g'.kids && g'.kids[x] == g.kids[x]
    && (x in g'.deletable <==> x in g.deletable)
  }

  lemma {:induction false} PlanFrame(g: Graph, g': Graph, w: Uuid)
    requires ValidGraph(g) && ValidGraph(g') && w in g.kids
    requires forall x {:trigger Alike(g, g', x)} :: x in Below(g, w) ==> Alike(g, g', x)
    ensures PlanSet(g', w) == PlanSet(g, w)
    ensures Removable(g', w) <==> Removable(g, w)
    decreases if w in g.rank then g.rank[w] else 0
  {
    assert Alike(g, g', w);
    forall v | v in g.kids[w]
      ensures PlanSet(g', v) == PlanSet(g, v) && (v in g'.deletable <==> v in g.deletable)
    {
      assert v in Below(g, v);
      assert v in Below(g, w);
      assert Alike(g, g', v);
      forall x | x in Below(g, v)
        ensures Alike(g, g', x)
      {
        assert x in Below(g, w);
      }
      PlanFrame(g, g', v);
    }
    PlanStep(g, g', w);
  }

  lemma PlanStep(g: Graph, g': Graph, w: Uuid)
    requires ValidGraph(g) && ValidGraph(g') && Alike(g, g', w)
    requires forall v :: v in g.kids[w] ==> PlanSet(g', v) == PlanSet(g, v)
    requires forall v :: v in g.kids[w] ==> (v in g'.deletable <==> v in g.deletable)
    ensures PlanSet(g', w) == PlanSet(g, w)
    ensures Removable(g', w) <==> Removable(g, w)
  {
  }

  lemma SameRowAlike(s: Schema, db: Db, rows: Db, x: Uuid)
    requires x in db && x in rows && rows[x] == db[x]
    ensures Alike(GraphOf(s, db), GraphOf(s, rows), x)
  {
  }

  /** Planning a deletion during a write is planning it on the committed replica. */
  lemma PlanDuringWrite(j: Job, rows: Db, w: Uuid)
    requires WellPosed(j) && RowsInv(j, rows) && w in j.base && !Claimed(j, w)
    requires ValidGraph(GraphOf(j.schema, j.base)) && ValidGraph(GraphOf(j.schema, rows))
    ensures PlanSet(GraphOf(j.schema, rows), w) == PlanSet(GraphOf(j.schema, j.base), w)
    ensures Removable(GraphOf(j.schema, rows), w) <==> Removable(GraphOf(j.schema, j.base), w)
  {
    var g, g' := GraphOf(j.schema, j.base), GraphOf(j.schema, rows);
    forall x | x in Below(g, w)
      ensures Alike(g, g', x)
    {
      BelowRank(g, w, x);
      UnclaimedBelow(j, g, w, x);
      assert OldRow(j, rows, x);
      SameRowAlike(j.schema, j.base, rows, x);
    }
    PlanFrame(g, g', w);
  }

  lemma {:induction false} BelowFrame(g: Graph, g': Graph, w: Uuid)
    requires ValidGraph(g) && ValidGraph(g') && w in g.kids
    requires forall x {:trigger Alike(g, g', x)} :: x in Below(g, w) ==> Alike(g, g', x)
    ensures Below(g', w) == Below(g, w)
    decreases if w in g.rank then g.rank[w] else 0
  {
    assert w in Below(g, w) && Alike(g, g', w);
    forall v | v in g.kids[w]
      ensures Below(g', v) == Below(g, v)
    {
      assert Owns(g, w, v);
      BelowChild(g, w, v);
      BelowFrame(g, g', v);
    }
  }

  /** Below a row that is named nowhere everything stays as committed during a write. */
  lemma TreeDuringWrite(j: Job, rows: Db, w: Uuid)
    requires WellPosed(j) && RowsInv(j, rows) && w in j.base && !Claimed(j, w)
    requires ValidGraph(GraphOf(j.schema, j.base)) && ValidGraph(GraphOf(j.schema, rows))
    ensures Below(GraphOf(j.schema, rows), w) == Below(GraphOf(j.schema, j.base), w)
    ensures forall x :: x in Below(GraphOf(j.schema, j.base), w) ==> x in j.base && x in rows && rows[x] == j.base[x]
    ensures ForestBelow(j.schema, rows, w)
  {
    var g, g' := GraphOf(j.schema, j.base), GraphOf(j.schema, rows);
    forall x | x in Below(g, w)
      ensures x in j.base && x in rows && rows[x] == j.base[x] && Alike(g, g', x)
    {
      BelowRank(g, w, x);
      UnclaimedBelow(j, g, w, x);
      assert OldRow(j, rows, x);
      SameRowAlike(j.schema, j.base, rows, x);
    }
    BelowFrame(g, g', w);
    forall u1, c1, u2, c2, v | u1 in Below(g', w) && u2 in Below(g', w)
                               && IsChildOf(j.schema, rows, u1, c1, v) && IsChildOf(j.schema, rows, u2, c2, v)
      ensures u1 == u2 && c1 == c2
    {
      assert IsChildOf(j.schema, j.base, u1, c1, v) && IsChildOf(j.schema, j.base, u2, c2, v);
    }
  }

  lemma ApartDuringWrite(j: Job, rows: Db, v: Uuid, w: Uuid)
    requires WellPosed(j) && RowsInv(j, rows) && v in j.base && !Claimed(j, v) && w in j.base && !Claimed(j, w)
    requires ValidGraph(GraphOf(j.schema, j.base)) && ValidGraph(GraphOf(j.schema, rows))
    requires Apart(GraphOf(j.schema, j.base), {v}, {w})
    ensures Apart(GraphOf(j.schema, rows), {v}, {w})
  {
    var g, g' := GraphOf(j.schema, j.base), GraphOf(j.schema, rows);
    TreeDuringWrite(j, rows, v);
    TreeDuringWrite(j, rows, w);
    forall x | x in Below(g, v)
      ensures Alike(g, g', x)
    {
      SameRowAlike(j.schema, j.base, rows, x);
    }
    ApartFrame(g, g', v, w);
  }

  lemma UnlinkedFrame(g: Graph, g': Graph, a: set<Uuid>, b: set<Uuid>)
    requires Unlinked(g, a, b) && forall x {:trigger Alike(g, g', x)} :: x in a ==> Alike(g, g', x)
    ensures Unlinked(g', a, b)
  {
    forall x, y | x in a && y in b
      ensures x != y && !Owns(g', x, y)
    {
      assert Alike(g, g', x);
    }
  }

  lemma ApartIs(g: Graph, v: Uuid, w: Uuid)
    requires ValidGraph(g)
    ensures Apart(g, {v}, {w}) <==> Unlinked(g, Below(g, v), Below(g, w))
  {
    BelowOne(g, v);
    BelowOne(g, w);
  }

  lemma BelowOne(g: Graph, v: Uuid)
    requires ValidGraph(g)
    ensures BelowAll(g, {v}) == Below(g, v)
  {
  }

  lemma ApartFrame(g: Graph, g': Graph, v: Uuid, w: Uuid)
    requires ValidGraph(g) && ValidGraph(g') && Apart(g, {v}, {w})
    requires Below(g', v) == Below(g, v) && Below(g', w) == Below(g, w)
    requires forall x {:trigger Alike(g, g', x)} :: x in Below(g, v) ==> Alike(g, g', x)
    ensures Apart(g', {v}, {w})
  {
    ApartIs(g, v, w);
    ApartIs(g', v, w);
    UnlinkedFrame(g, g', Below(g, v), Below(g, w));
  }

  lemma ScatteredDuringWrite(j: Job, rows: Db, dropped: set<Uuid>)
    requires WellPosed(j) && RowsInv(j, rows) && forall w :: w in dropped ==> w in j.base && !Claimed(j, w)
    requires ValidGraph(GraphOf(j.schema, j.base)) && ValidGraph(GraphOf(j.schema, rows))
    requires Scattered(GraphOf(j.schema, j.base), dropped)
    ensures Scattered(GraphOf(j.schema, rows), dropped) && forall w :: w in dropped ==> ForestBelow(j.schema, rows, w)
  {
    forall v, w | v in dropped && w in dropped && v != w
      ensures Apart(GraphOf(j.schema, rows), {v}, {w})
    {
      ApartDuringWrite(j, rows, v, w);
    }
    forall w | w in dropped
      ensures ForestBelow(j.schema, rows, w)
    {
      TreeDuringWrite(j, rows, w);
    }
  }

  /** What an operation in such a plan tells of its row is so in the committed replica too. */
  lemma DescribedDuringWrite(j: Job, rows: Db, w: Uuid, parent: Option<Owner>, op: ResourceOp)
    requires WellPosed(j) && RowsInv(j, rows) && w in j.base && !Claimed(j, w) && w in rows && rows[w].table == j.base[w].table
    requires ValidGraph(GraphOf(j.schema, j.base)) && ValidGraph(GraphOf(j.schema, rows))
    requires InPlan(j.schema, rows, GraphOf(j.schema, rows), w, parent, op)
    requires Described(j.schema, j.base, ResourceOp(w, j.base[w].table, parent))
    ensures Described(j.schema, j.base, op)
  {
    if op.row != w {
      TreeDuringWrite(j, rows, w);
      var u := op.parent.value.row;
      var c :| IsChildOf(j.schema, rows, u, c, op.row);
      assert Owns(GraphOf(j.schema, rows), u, op.row);
      BelowGoesOn(GraphOf(j.schema, rows), w, u, op.row);
      assert IsChildOf(j.schema, j.base, u, c, op.row);
    }
  }

  /** `dropped` are the rows that are put up for deletion at a site, `planned` what their plans hold. */
  ghost predicate IsPlanned(j: Job, p: Path, c: Name, dropped: set<Uuid>, planned: set<Uuid>)
    requires ValidGraph(GraphOf(j.schema, j.base))
  {
    && (forall w {:trigger w in dropped} {:trigger DroppedAt(j, p, c, w)} :: w in dropped <==> DroppedAt(j, p, c, w))
    && planned == PlanAll(GraphOf(j.schema, j.base), dropped)
  }

  /** Dropping the rows of one site only adds to the DELETE list. */
  lemma DropStage(j: Job, a: State, p: Path, c: Name, dropped: set<Uuid>, planned: set<Uuid>)
    requires WellPosed(j) && Inv(j, a) && ValidGraph(GraphOf(j.schema, j.base)) && IsPlanned(j, p, c, dropped, planned)
    ensures Stage(j, a, a.(deletes := a.deletes + multiset(planned)), iset{}, iset{}, iset{At(p, c)})
  {
    PlannedIsDoomed(j, p, c, dropped, planned);
    EmptyStage(j, a, iset{});
    forall v
      ensures !Doomed(j, iset{}, v)
    {
    }
  }

  lemma PlannedIsDoomed(j: Job, p: Path, c: Name, dropped: set<Uuid>, planned: set<Uuid>)
    requires WellPosed(j) && ValidGraph(GraphOf(j.schema, j.base)) && IsPlanned(j, p, c, dropped, planned)
    ensures forall v :: v in planned ==> v in j.base && !Claimed(j, v)
    ensures forall v {:trigger v in planned} {:trigger Doomed(j, iset{At(p, c)}, v)} ::
              v in planned <==> Doomed(j, iset{At(p, c)}, v)
  {
    var g, site := GraphOf(j.schema, j.base), iset{At(p, c)};
    forall v | v in planned
      ensures Doomed(j, site, v) && v in j.base && !Claimed(j, v)
    {
      var w :| w in dropped && v in PlanSet(g, w);
      assert At(p, c) in site && DroppedAt(j, At(p, c).path, At(p, c).column, w);
      DroppedIsUnclaimed(j, p, c, w);
      PlannedIsUnclaimed(j, w, v);
    }
    forall v | Doomed(j, site, v)
      ensures v in planned
    {
      var at, w :| at in site && DroppedAt(j, at.path, at.column, w) && v in PlanSet(g, w);
      assert w in dropped;
    }
  }

  /** Replacing the row of a location touches nothing else. */
  lemma TouchRow(j: Job, st: State, p: Path, row: Row)
    requires WellPosed(j) && Inv(j, st) && ValidGraph(GraphOf(j.schema, j.base))
    requires Placed(j, st.created, p) && FitsIn(j.schema, st.rows, row)
    requires Place(j, st.created, p) in st.rows
    requires row.table == st.rows[Place(j, st.created, p)].table
    requires row.internal == st.rows[Place(j, st.created, p)].internal
    ensures Stage(j, st, st.(rows := st.rows[Place(j, st.created, p) := row]), iset{}, iset{p}, iset{})
  {
    ReplacePlaced(j, st, p, row);
    EmptyStage(j, st, iset{p});
  }

  lemma Touch(j: Job, a: State, b: State, region: iset<Path>, touched: iset<Path>, sites: iset<Site>)
    requires ValidGraph(GraphOf(j.schema, j.base)) && Stage(j, a, b, region, iset{}, sites)
    ensures Stage(j, a, b, region, touched, sites)
  {
  }

  lemma StaysUntouched(j: Job, a: State, b: State, r1: iset<Path>, sites: iset<Site>, r2: iset<Path>)
    requires WellPosed(j) && ValidGraph(GraphOf(j.schema, j.base))
    requires Stage(j, a, b, r1, iset{}, sites) && Untouched(j, a, r2) && r1 !! r2
    ensures Untouched(j, b, r2)
  {
    forall q, r | q in r2 && IsOld(j, q, r)
      ensures r in b.rows && r in j.base && b.rows[r] == j.base[r] && r !in b.updates
    {
      assert SameAt(j, a.created, a.rows, b.rows, q);
    }
  }

  // ---------- writing a child column ----------

  /** Every entry of the column has its row. */
  ghost predicate EntriesPlaced(j: Job, created: map<Path, Uuid>, p: Path, c: Name) {
    forall k {:trigger p + [Step(c, k)]} :: Live(j, p + [Step(c, k)]) ==> Placed(j, created, p + [Step(c, k)])
  }

  lemma ChildTableOf(j: Job, p: Path, c: Name, k: string)
    ensures TableAt(j.schema, p) in j.schema.tables && c in j.schema.tables[TableAt(j.schema, p)].references && p != [] ==>
              TableAt(j.schema, p + [Step(c, k)]) == j.schema.tables[TableAt(j.schema, p)].references[c].refTable
  {
    ChildPath(p, Step(c, k));
  }

  lemma TargetColumnFits(j: Job, st: State, p: Path, c: Name, v: Uuid)
    requires WellPosed(j) && Inv(j, st) && Placed(j, st.created, p) && c in ChildColumns(j, p)
    requires EntriesPlaced(j, st.created, p, c) && v in Targets(TargetColumn(j, st.created, p, c))
    ensures TableAt(j.schema, p) in j.schema.tables
    ensures v in st.rows && st.rows[v].table == j.schema.tables[TableAt(j.schema, p)].references[c].refTable
  {
    var children := NewChildren(j, st.created, p, c);
    if k :| k in children && children[k] == v {
      ChildTableOf(j, p, c, k);
      PlacedRow(j, st, p + [Step(c, k)]);
    } else {
      assert v in Targets(Remainder(j.schema, j.base, OldColumn(j, p, c), KeysAt(j, p, c)));
      assert v in Targets(OldColumn(j, p, c));
      if Exist(j, p).Some? {
        var u := Exist(j, p).value;
        assert IsOld(j, p, u);
        ColumnOf(j, p, c, u);
        KidIsLower(j.schema, j.base, u, c, v);
        assert OldRow(j, st.rows, v);
      }
    }
  }

  lemma SetColumnFits(s: Schema, db: Db, row: Row, c: Name, column: RefValue)
    requires FitsIn(s, db, row) && c in row.refs && IsChildColumn(s.tables[row.table], c)
    requires s.tables[row.table].references[c].shape != One
    requires column.Map? <==> s.tables[row.table].references[c].shape == Keyed
    requires forall v :: v in Targets(column) ==> v in db && db[v].table == s.tables[row.table].references[c].refTable
    ensures FitsIn(s, db, row.(refs := row.refs[c := column]))
  {
    var after := row.(refs := row.refs[c := column]);
    forall d | d in after.refs
      ensures after.refs[d].Map? <==> s.tables[row.table].references[d].shape == Keyed
      ensures s.tables[row.table].references[d].shape == One ==> |Targets(after.refs[d])| <= 1
    {
      if d != c {
        assert after.refs[d] == row.refs[d];
      }
    }
    forall d, v | d in after.refs && v in Targets(after.refs[d])
      ensures TargetFits(s, db, after, d, v)
    {
      if d != c {
        assert TargetFits(s, db, row, d, v);
      }
    }
  }

  lemma RowInDbFits(s: Schema, db: Db, u: Uuid)
    requires ValidDb(s, db) && u in db
    ensures FitsIn(s, db, db[u])
  {
    assert ValidRow(s, db[u]);
    forall c, v | c in db[u].refs && v in Targets(db[u].refs[c])
      ensures TargetFits(s, db, db[u], c, v)
    {
      assert ValidTarget(s, db, u, c, v);
    }
  }

  lemma OldColumnShape(j: Job, p: Path, c: Name)
    requires WellPosed(j) && Live(j, p) && c in ChildColumns(j, p)
    ensures OldColumn(j, p, c).Map? <==> j.schema.tables[TableAt(j.schema, p)].references[c].shape == Keyed
  {
    if Exist(j, p).Some? {
      assert IsOld(j, p, Exist(j, p).value);
      ColumnOf(j, p, c, Exist(j, p).value);
    }
  }

  lemma TargetColumnShape(j: Job, created: map<Path, Uuid>, p: Path, c: Name)
    requires WellPosed(j) && Live(j, p) && c in ChildColumns(j, p)
    ensures var column := j.schema.tables[TableAt(j.schema, p)].references[c];
            (TargetColumn(j, created, p, c).Map? <==> column.shape == Keyed) && column.shape != One
  {
    assert ValidColumn(j.schema, TableAt(j.schema, p), c);
    OldColumnShape(j, p, c);
  }

  /** The column written last completes a partly built row. */
  lemma WriteColumn(j: Job, st: State, p: Path, c: Name, done: set<Name>)
    requires WellPosed(j) && Inv(j, st) && ValidGraph(GraphOf(j.schema, j.base))
    requires Placed(j, st.created, p) && c in ChildColumns(j, p) && EntriesPlaced(j, st.created, p, c)
    requires Place(j, st.created, p) in st.rows
    requires st.rows[Place(j, st.created, p)] == PartialRow(j, st.created, p, done)
    ensures c in PartialRow(j, st.created, p, done).refs
    ensures var u := Place(j, st.created, p);
            var row := st.rows[u].(refs := st.rows[u].refs[c := TargetColumn(j, st.created, p, c)]);
            && row == PartialRow(j, st.created, p, done + {c})
            && Stage(j, st, st.(rows := st.rows[u := row]), iset{}, iset{p}, iset{})
  {
    var u := Place(j, st.created, p);
    PlacedRow(j, st, p);
    RowInDbFits(j.schema, st.rows, u);
    assert c in st.rows[u].refs;
    var column := TargetColumn(j, st.created, p, c);
    TargetColumnShape(j, st.created, p, c);
    forall v | v in Targets(column)
      ensures v in st.rows && st.rows[v].table == j.schema.tables[st.rows[u].table].references[c].refTable
    {
      TargetColumnFits(j, st, p, c, v);
    }
    SetColumnFits(j.schema, st.rows, st.rows[u], c, column);
    var row := st.rows[u].(refs := st.rows[u].refs[c := column]);
    PartialStep(j, st.created, p, c, done);
    TouchRow(j, st, p, row);
  }

  lemma PartialStep(j: Job, created: map<Path, Uuid>, p: Path, c: Name, done: set<Name>)
    requires c in PartialRow(j, created, p, done).refs
    ensures var row := PartialRow(j, created, p, done);
            row.(refs := row.refs[c := TargetColumn(j, created, p, c)]) == PartialRow(j, created, p, done + {c})
  {
    var row := PartialRow(j, created, p, done);
    assert row.refs[c := TargetColumn(j, created, p, c)] == PartialRow(j, created, p, done + {c}).refs;
  }

  lemma PartialStable(j: Job, a: map<Path, Uuid>, b: map<Path, Uuid>, p: Path, done: set<Name>)
    requires Extends(a, b)
    requires forall q {:trigger q in a} :: q in ColumnsRegion(j, p, done) && IsNew(j, q) ==> q in a
    ensures PartialRow(j, a, p, done) == PartialRow(j, b, p, done)
  {
    var x, y := PartialRow(j, a, p, done).refs, PartialRow(j, b, p, done).refs;
    forall c | c in x && c in done
      ensures TargetColumn(j, a, p, c) == TargetColumn(j, b, p, c)
    {
      DoneColumnStable(j, a, b, p, done, c);
    }
    assert x == y;
  }

  lemma DoneColumnStable(j: Job, a: map<Path, Uuid>, b: map<Path, Uuid>, p: Path, done: set<Name>, c: Name)
    requires Extends(a, b) && c in done
    requires forall q {:trigger q in a} :: q in ColumnsRegion(j, p, done) && IsNew(j, q) ==> q in a
    ensures TargetColumn(j, a, p, c) == TargetColumn(j, b, p, c)
  {
    var m, n := NewChildren(j, a, p, c), NewChildren(j, b, p, c);
    forall k | k in m
      ensures m[k] == n[k]
    {
      var q := p + [Step(c, k)];
      assert q[|p|].column == c;
      assert q in ColumnsRegion(j, p, done);
      assert IsNew(j, q) ==> q in a && q in b;
    }
    assert m == n;
  }

  // ---------- a whole row ----------

  lemma SameOutside(j: Job, a: State, b: State, c: State, p: Path, sites: iset<Site>, q: Path)
    requires WellPosed(j) && ValidGraph(GraphOf(j.schema, j.base)) && Live(j, p)
    requires Opened(j, a, b, p) && Stage(j, b, c, ColumnsRegion(j, p, ChildColumns(j, p)), iset{p}, sites)
    requires q !in RowRegion(j, p) && Placed(j, a.created, q)
    ensures SameAt(j, a.created, a.rows, c.rows, q)
  {
    assert p <= p;
    assert SameAt(j, a.created, a.rows, b.rows, q);
    assert q in a.created ==> q in b.created;
    assert SameAt(j, b.created, b.rows, c.rows, q);
  }

  /** The row was opened, its columns were written: the location is done. */
  lemma FinishRow(j: Job, a: State, b: State, c: State, p: Path, sites: iset<Site>)
    requires WellPosed(j) && ValidGraph(GraphOf(j.schema, j.base)) && Live(j, p)
    requires Opened(j, a, b, p) && Stage(j, b, c, ColumnsRegion(j, p, ChildColumns(j, p)), iset{p}, sites)
    requires BuiltAt(j, c.rows, c.created, p)
    ensures Stage(j, a, c, RowRegion(j, p), iset{}, sites)
  {
    AllColumns(j, p);
    forall q | q !in RowRegion(j, p) && Placed(j, a.created, q)
      ensures SameAt(j, a.created, a.rows, c.rows, q)
    {
      SameOutside(j, a, b, c, p, sites, q);
    }
    forall q, r | IsOld(j, q, r)
      ensures r in c.updates <==> if q in RowRegion(j, p) then Changed(j, q) else r in a.updates
    {
    }
  }

  // ---------- one entry after the other ----------

  /** The rows of the entries `done`. */
  ghost function EntryRows(j: Job, created: map<Path, Uuid>, p: Path, c: Name, done: set<string>): map<string, Uuid> {
    map k | k in done && Live(j, p + [Step(c, k)]) :: Place(j, created, p + [Step(c, k)])
  }

  /** Rows below the entries `done` that live in key/value columns carry their label. */
  ghost predicate BelowLabelled(j: Job, labels: map<Path, Uuid>, p: Path, c: Name, done: set<string>) {
    forall q {:trigger q in labels} :: q in EntriesRegion(j, p, c, done) && |q| > |p| + 1 && IsKeyed(j.schema, q) ==> q in labels
  }

  lemma UntouchedEntry(j: Job, st: State, p: Path, c: Name, todo: set<string>, k: string)
    requires Untouched(j, st, EntriesRegion(j, p, c, todo)) && k in todo
    ensures Untouched(j, st, RowRegion(j, p + [Step(c, k)]))
  {
    NextEntry(j, p, c, {}, k);
    forall q | q in RowRegion(j, p + [Step(c, k)])
      ensures q in EntriesRegion(j, p, c, todo)
    {
      assert q in EntriesRegion(j, p, c, {} + {k});
    }
  }

  lemma EntryStage(j: Job, a: State, b: State, d: State, p: Path, c: Name, done: set<string>, todo: set<string>, k: string)
    requires WellPosed(j) && ValidGraph(GraphOf(j.schema, j.base)) && k in todo && done !! todo
    requires Stage(j, a, b, EntriesRegion(j, p, c, done), iset{}, SitesOf(j, EntriesRegion(j, p, c, done)))
    requires Untouched(j, b, EntriesRegion(j, p, c, todo))
    requires Stage(j, b, d, RowRegion(j, p + [Step(c, k)]), iset{}, SitesOf(j, RowRegion(j, p + [Step(c, k)])))
    ensures Stage(j, a, d, EntriesRegion(j, p, c, done + {k}), iset{}, SitesOf(j, EntriesRegion(j, p, c, done + {k})))
    ensures Untouched(j, d, EntriesRegion(j, p, c, todo - {k}))
  {
    var r1, r2 := EntriesRegion(j, p, c, done), RowRegion(j, p + [Step(c, k)]);
    NextEntry(j, p, c, done, k);
    EntriesDownClosed(j, p, c, done);
    SitesUnion(j, r1, r2);
    assert SitesOf(j, r1) !! SitesOf(j, r2);
    StagesCompose(j, a, b, d, r1, r2, iset{}, SitesOf(j, r1), SitesOf(j, r2));
    NextEntry(j, p, c, todo - {k}, k);
    var rest := EntriesRegion(j, p, c, todo - {k});
    assert Untouched(j, b, rest) by {
      forall q | q in rest
        ensures q in EntriesRegion(j, p, c, todo)
      {
      }
    }
    StaysUntouched(j, b, d, r2, SitesOf(j, r2), rest);
  }

  /** The row of an entry that is done stays what it is while rows are created elsewhere. */
  lemma DonePlace(j: Job, b: map<Path, Uuid>, d: map<Path, Uuid>, p: Path, c: Name, done: set<string>, i: string)
    requires Extends(b, d)
    requires forall q {:trigger q in b} :: q in EntriesRegion(j, p, c, done) && IsNew(j, q) ==> q in b
    requires i in done && Live(j, p + [Step(c, i)])
    ensures Place(j, b, p + [Step(c, i)]) == Place(j, d, p + [Step(c, i)])
  {
    var q := p + [Step(c, i)];
    assert q[|p|] == Step(c, i);
    assert q in EntriesRegion(j, p, c, done);
    assert IsNew(j, q) ==> q in b && q in d;
  }

  lemma SameEntries(a: map<string, Uuid>, b: map<string, Uuid>)
    requires forall i {:trigger i in a} {:trigger i in b} :: i in a <==> i in b
    requires forall i {:trigger a[i]} {:trigger b[i]} :: i in a && i in b ==> a[i] == b[i]
    ensures a == b
  {
  }

  lemma EntryRowsStep(j: Job, b: map<Path, Uuid>, d: map<Path, Uuid>, p: Path, c: Name, done: set<string>, k: string,
                      child: Option<Uuid>)
    requires Extends(b, d)
    requires forall q {:trigger q in b} :: q in EntriesRegion(j, p, c, done) && IsNew(j, q) ==> q in b
    requires child.Some? <==> Live(j, p + [Step(c, k)])
    requires child.Some? ==> child.value == Place(j, d, p + [Step(c, k)])
    ensures EntryRows(j, d, p, c, done + {k}) ==
            if child.Some? then EntryRows(j, b, p, c, done)[k := child.value] else EntryRows(j, b, p, c, done)
  {
    var before, after := EntryRows(j, b, p, c, done), EntryRows(j, d, p, c, done + {k});
    var expected := if child.Some? then before[k := child.value] else before;
    forall i
      ensures i in after <==> i in expected
      ensures i in after ==> after[i] == expected[i]
    {
      if i != k && i in done && Live(j, p + [Step(c, i)]) {
        DonePlace(j, b, d, p, c, done, i);
      }
    }
    SameEntries(after, expected);
  }

  lemma LabelsStep(j: Job, labels: map<Path, Uuid>, after: map<Path, Uuid>, p: Path, c: Name, done: set<string>, k: string)
    requires BelowLabelled(j, labels, p, c, done)
    requires forall q {:trigger q in after} :: q in labels ==> q in after
    requires DeepLabelled(j, after, p + [Step(c, k)])
    ensures BelowLabelled(j, after, p, c, done + {k})
  {
    NextEntry(j, p, c, done, k);
    forall q | q in EntriesRegion(j, p, c, done + {k}) && |q| > |p| + 1 && IsKeyed(j.schema, q)
      ensures q in after
    {
      if q in EntriesRegion(j, p, c, done) {
        assert q in labels;
      }
    }
  }

  /** Since `start` the entries `done` have been written, the entries `todo` have not. */
  ghost predicate EntriesState(j: Job, start: State, st: State, p: Path, c: Name, done: set<string>, todo: set<string>,
                               children: map<string, Uuid>)
  {
    && ValidGraph(GraphOf(j.schema, j.base))
    && done !! todo
    && Stage(j, start, st, EntriesRegion(j, p, c, done), iset{}, SitesOf(j, EntriesRegion(j, p, c, done)))
    && Untouched(j, st, EntriesRegion(j, p, c, todo))
    && children == EntryRows(j, st.created, p, c, done)
    && BelowLabelled(j, st.labels, p, c, done)
  }

  lemma EntriesBegin(j: Job, st: State, p: Path, c: Name)
    requires WellPosed(j) && Inv(j, st) && ValidGraph(GraphOf(j.schema, j.base)) && p != []
    requires Untouched(j, st, ColumnsRegion(j, p, {c}))
    ensures EntriesState(j, st, st, p, c, {}, KeysAt(j, p, c), map[])
  {
    AllEntries(j, p, c);
    EmptyStage(j, st, iset{});
    assert EntriesRegion(j, p, c, {}) == iset{};
    assert SitesOf(j, iset{}) == iset{};
  }

  lemma EntriesNext(j: Job, start: State, b: State, d: State, p: Path, c: Name, done: set<string>, todo: set<string>,
                    children: map<string, Uuid>, k: string, child: Option<Uuid>)
    requires WellPosed(j) && EntriesState(j, start, b, p, c, done, todo, children) && k in todo
    requires Stage(j, b, d, RowRegion(j, p + [Step(c, k)]), iset{}, SitesOf(j, RowRegion(j, p + [Step(c, k)])))
    requires child.Some? <==> Live(j, p + [Step(c, k)])
    requires child.Some? ==> child.value == Place(j, d.created, p + [Step(c, k)])
    requires DeepLabelled(j, d.labels, p + [Step(c, k)])
    ensures EntriesState(j, start, d, p, c, done + {k}, todo - {k}, if child.Some? then children[k := child.value] else children)
  {
    EntryStage(j, start, b, d, p, c, done, todo, k);
    CreatedExtends(j, b, d, RowRegion(j, p + [Step(c, k)]), iset{}, SitesOf(j, RowRegion(j, p + [Step(c, k)])));
    EntryRowsStep(j, b.created, d.created, p, c, done, k, child);
    LabelsStep(j, b.labels, d.labels, p, c, done, k);
  }

  lemma EntriesEnd(j: Job, start: State, st: State, p: Path, c: Name, children: map<string, Uuid>)
    requires WellPosed(j) && p != [] && EntriesState(j, start, st, p, c, KeysAt(j, p, c), {}, children)
    ensures Stage(j, start, st, ColumnsRegion(j, p, {c}), iset{}, SitesOf(j, ColumnsRegion(j, p, {c})))
    ensures children == NewChildren(j, st.created, p, c)
  {
    AllEntries(j, p, c);
  }

  /** Everything below `p` that lives in a key/value column carries its label. */
  ghost predicate DeepLabelled(j: Job, labels: map<Path, Uuid>, p: Path) {
    forall q {:trigger q in labels} :: q in RowRegion(j, p) && q != p && IsKeyed(j.schema, q) ==> q in labels
  }

  // ---------- one column after the other ----------

  /** The column region of `c` written between two states, the row at `p` itself under way. */
  ghost predicate ColumnStage(j: Job, a: State, b: State, p: Path, c: Name) {
    && ValidGraph(GraphOf(j.schema, j.base))
    && Stage(j, a, b, ColumnsRegion(j, p, {c}), iset{p}, SitesOf(j, ColumnsRegion(j, p, {c})) + OwnSites(p, {c}))
  }

  lemma NoSites(p: Path, sites: iset<Site>)
    ensures OwnSites(p, {}) == iset{} && sites + iset{} == sites && iset{} + sites == sites
  {
  }

  lemma OneSite(p: Path, c: Name)
    ensures OwnSites(p, {c}) == iset{At(p, c)}
  {
  }

  /** A site where nothing is dropped makes no difference. */
  lemma NothingDropped(j: Job, a: State, b: State, p: Path, c: Name, region: iset<Path>, touched: iset<Path>, sites: iset<Site>)
    requires ValidGraph(GraphOf(j.schema, j.base)) && forall w {:trigger DroppedAt(j, p, c, w)} :: !DroppedAt(j, p, c, w)
    requires Stage(j, a, b, region, touched, sites)
    ensures Stage(j, a, b, region, touched, sites + OwnSites(p, {c}))
  {
    forall v
      ensures Doomed(j, sites, v) <==> Doomed(j, sites + OwnSites(p, {c}), v)
    {
      DoomedUnion(j, sites, OwnSites(p, {c}), v);
    }
  }

  lemma SitesApart(j: Job, p: Path, a: set<Name>, b: set<Name>)
    ensures OwnSites(p, a) !! SitesOf(j, ColumnsRegion(j, p, b))
  {
  }

  /** Setting up the entries of a column and writing it. */
  lemma EntriesDone(j: Job, b: State, d: State, e: State, p: Path, c: Name)
    requires WellPosed(j) && ValidGraph(GraphOf(j.schema, j.base)) && p != []
    requires Stage(j, b, d, ColumnsRegion(j, p, {c}), iset{}, SitesOf(j, ColumnsRegion(j, p, {c})))
    requires Stage(j, d, e, iset{}, iset{p}, iset{})
    ensures Stage(j, b, e, ColumnsRegion(j, p, {c}), iset{p}, SitesOf(j, ColumnsRegion(j, p, {c})))
  {
    var r, s := ColumnsRegion(j, p, {c}), SitesOf(j, ColumnsRegion(j, p, {c}));
    NextColumn(j, p, {}, c);
    ColumnsDownClosed(j, p, {c});
    Touch(j, b, d, r, iset{p}, s);
    StagesCompose(j, b, d, e, r, iset{}, iset{p}, s, iset{});
    assert r + iset{} == r && s + iset{} == s;
  }

  /** Emptying the column, setting up its entries and writing it are one column stage. */
  lemma ColumnDone(j: Job, a: State, b: State, d: State, e: State, p: Path, c: Name)
    requires WellPosed(j) && ValidGraph(GraphOf(j.schema, j.base)) && p != []
    requires if Exist(j, p).Some? then Stage(j, a, b, iset{}, iset{}, iset{At(p, c)}) else a == b
    requires Stage(j, b, d, ColumnsRegion(j, p, {c}), iset{}, SitesOf(j, ColumnsRegion(j, p, {c})))
    requires Stage(j, d, e, iset{}, iset{p}, iset{})
    ensures ColumnStage(j, a, e, p, c)
  {
    var r, s := ColumnsRegion(j, p, {c}), SitesOf(j, ColumnsRegion(j, p, {c}));
    EntriesDone(j, b, d, e, p, c);
    OneSite(p, c);
    if Exist(j, p).Some? {
      SitesApart(j, p, {c}, {c});
      Touch(j, a, b, iset{}, iset{p}, iset{At(p, c)});
      StagesCompose(j, a, b, e, iset{}, r, iset{p}, iset{At(p, c)}, s);
      assert iset{} + r == r && iset{At(p, c)} + s == s + OwnSites(p, {c});
    } else {
      NothingDropped(j, a, e, p, c, r, iset{p}, s);
    }
  }

  ghost function ColumnSites(j: Job, p: Path, done: set<Name>): iset<Site> {
    SitesOf(j, ColumnsRegion(j, p, done)) + OwnSites(p, done)
  }

  lemma ColumnSitesApart(j: Job, p: Path, done: set<Name>, c: Name)
    requires c !in done
    ensures ColumnSites(j, p, done) !! ColumnSites(j, p, {c})
  {
    NextColumn(j, p, done, c);
    SitesApart(j, p, done, {c});
    SitesApart(j, p, {c}, done);
  }

  lemma NextColumnStage(j: Job, a: State, b: State, d: State, p: Path, done: set<Name>, c: Name)
    requires WellPosed(j) && ValidGraph(GraphOf(j.schema, j.base)) && c !in done
    requires Stage(j, a, b, ColumnsRegion(j, p, done), iset{p}, ColumnSites(j, p, done))
    requires ColumnStage(j, b, d, p, c)
    ensures Stage(j, a, d, ColumnsRegion(j, p, done + {c}), iset{p}, ColumnSites(j, p, done + {c}))
  {
    NextColumn(j, p, done, c);
    ColumnsDownClosed(j, p, done);
    SitesUnion(j, ColumnsRegion(j, p, done), ColumnsRegion(j, p, {c}));
    ColumnSitesApart(j, p, done, c);
    StagesCompose(j, a, b, d, ColumnsRegion(j, p, done), ColumnsRegion(j, p, {c}), iset{p},
                  ColumnSites(j, p, done), ColumnSites(j, p, {c}));
    assert ColumnSites(j, p, done) + ColumnSites(j, p, {c}) == ColumnSites(j, p, done + {c});
  }

  lemma StaysUntouchedColumn(j: Job, a: State, b: State, p: Path, c: Name, todo: set<Name>)
    requires WellPosed(j) && ColumnStage(j, a, b, p, c) && c !in todo && Untouched(j, a, ColumnsRegion(j, p, todo))
    ensures Untouched(j, b, ColumnsRegion(j, p, todo))
  {
    forall q, r | q in ColumnsRegion(j, p, todo) && IsOld(j, q, r)
      ensures r in b.rows && r in j.base && b.rows[r] == j.base[r] && r !in b.updates
    {
      assert SameAt(j, a.created, a.rows, b.rows, q);
    }
  }

  lemma UntouchedColumns(j: Job, st: State, p: Path, some: set<Name>, all: set<Name>)
    requires Untouched(j, st, ColumnsRegion(j, p, all)) && some <= all
    ensures Untouched(j, st, ColumnsRegion(j, p, some))
  {
    forall q | q in ColumnsRegion(j, p, some)
      ensures q in ColumnsRegion(j, p, all)
    {
    }
  }

  lemma UntouchedOnceOpened(j: Job, a: State, b: State, p: Path)
    requires WellPosed(j) && Opened(j, a, b, p) && Untouched(j, a, RowRegion(j, p))
    ensures Untouched(j, b, ColumnsRegion(j, p, ChildColumns(j, p)))
  {
    forall q | q in ColumnsRegion(j, p, ChildColumns(j, p))
      ensures q in RowRegion(j, p) && q != p
    {
    }
    forall q, r | q in ColumnsRegion(j, p, ChildColumns(j, p)) && IsOld(j, q, r)
      ensures r in b.rows && r in j.base && b.rows[r] == j.base[r] && r !in b.updates
    {
      assert SameAt(j, a.created, a.rows, b.rows, q);
    }
  }

  lemma NothingNamed(j: Job, created: map<Path, Uuid>, p: Path, c: Name)
    requires KeysAt(j, p, c) == {}
    ensures TargetColumn(j, created, p, c) == Remainder(j.schema, j.base, OldColumn(j, p, c), {})
    ensures ColumnsRegion(j, p, {c}) == iset{} || !WellPosed(j) || p == []
  {
    var none := NewChildren(j, created, p, c);
    assert none == map[];
    var kept := Remainder(j.schema, j.base, OldColumn(j, p, c), {});
    match kept {
      case Rows(rows) => assert rows + none.Values == rows;
      case Map(entries) => assert entries + none == entries;
    }
    if WellPosed(j) && p != [] {
      AllEntries(j, p, c);
    }
  }

  lemma StartColumn(j: Job, p: Path, c: Name)
    requires WellPosed(j) && Live(j, p) && c in ChildColumns(j, p)
    ensures c in StartRow(j, p).refs && StartRow(j, p).refs[c] == OldColumn(j, p, c)
    ensures Exist(j, p).None? ==>
              && OldColumn(j, p, c) == NoRows(j.schema.tables[TableAt(j.schema, p)].references[c].shape)
              && Remainder(j.schema, j.base, OldColumn(j, p, c), KeysAt(j, p, c)) == OldColumn(j, p, c)
  {
    if Exist(j, p).Some? {
      var u := Exist(j, p).value;
      assert IsOld(j, p, u);
      ColumnOf(j, p, c, u);
      OldStartRow(j, p, u);
    } else {
      NewStartRow(j, p);
    }
  }

  lemma SkipColumn(j: Job, created: map<Path, Uuid>, p: Path, c: Name, done: set<Name>)
    requires WellPosed(j) && IsNew(j, p) && c in ChildColumns(j, p) && KeysAt(j, p, c) == {}
    ensures PartialRow(j, created, p, done + {c}) == PartialRow(j, created, p, done)
  {
    StartColumn(j, p, c);
    NothingNamed(j, created, p, c);
    var x, y := PartialRow(j, created, p, done + {c}).refs, PartialRow(j, created, p, done).refs;
    assert forall d :: d in x ==> x[d] == y[d];
    assert x == y;
  }

  /** Labelling the rows of a column's entries changes nothing else. */
  /** Labels that are not old are those of entries of one column. */
  ghost predicate LabelsOf(j: Job, created: map<Path, Uuid>, p: Path, c: Name, before: map<Path, Uuid>, labels: map<Path, Uuid>) {
    && (forall q {:trigger q in labels} :: q in before ==> q in labels)
    && (forall q {:trigger EntryLabel(j, created, p, c, q, labels)} :: q in labels ==>
          (q in before && labels[q] == before[q]) || EntryLabel(j, created, p, c, q, labels))
  }

  ghost predicate EntryLabel(j: Job, created: map<Path, Uuid>, p: Path, c: Name, q: Path, labels: map<Path, Uuid>) {
    && q in labels
    && (exists k {:trigger Step(c, k)} :: q == p + [Step(c, k)])
    && Live(j, q) && labels[q] == Place(j, created, q)
  }

  lemma LabelOne(j: Job, created: map<Path, Uuid>, p: Path, c: Name, before: map<Path, Uuid>, labels: map<Path, Uuid>, k: string)
    requires LabelsOf(j, created, p, c, before, labels) && Live(j, p + [Step(c, k)])
    ensures LabelsOf(j, created, p, c, before, labels[p + [Step(c, k)] := Place(j, created, p + [Step(c, k)])])
  {
    var p' := p + [Step(c, k)];
    var after := labels[p' := Place(j, created, p')];
    forall q | q in after
      ensures (q in before && after[q] == before[q]) || EntryLabel(j, created, p, c, q, after)
    {
      assert q != p' && !(q in before && labels[q] == before[q]) ==> EntryLabel(j, created, p, c, q, labels);
    }
  }

  lemma LabelStage(j: Job, st: State, p: Path, c: Name, labels: map<Path, Uuid>)
    requires WellPosed(j) && Inv(j, st) && ValidGraph(GraphOf(j.schema, j.base)) && EntriesPlaced(j, st.created, p, c)
    requires LabelsOf(j, st.created, p, c, st.labels, labels)
    ensures Stage(j, st, st.(labels := labels), iset{}, iset{p}, iset{})
  {
    forall q | q in labels
      ensures Labelled(j, st.created, labels, q)
    {
      assert q in st.labels ==> Labelled(j, st.created, st.labels, q);
      assert !(q in st.labels && labels[q] == st.labels[q]) ==> EntryLabel(j, st.created, p, c, q, labels);
    }
    EmptyStage(j, st, iset{p});
  }

  lemma LabelledColumn(j: Job, labels: map<Path, Uuid>, after: map<Path, Uuid>, p: Path, c: Name)
    requires WellPosed(j) && Live(j, p) && BelowLabelled(j, labels, p, c, KeysAt(j, p, c))
    requires forall q {:trigger q in after} :: q in labels ==> q in after
    requires forall k {:trigger p + [Step(c, k)]} ::
               k in KeysAt(j, p, c) && Live(j, p + [Step(c, k)]) && IsKeyed(j.schema, p + [Step(c, k)]) ==> p + [Step(c, k)] in after
    ensures forall q {:trigger q in after} :: q in ColumnsRegion(j, p, {c}) && IsKeyed(j.schema, q) ==> q in after
  {
    AllEntries(j, p, c);
    forall q: Path | q in ColumnsRegion(j, p, {c}) && IsKeyed(j.schema, q)
      ensures q in after
    {
      StepBelow(j, p, q);
      if |q| == |p| + 1 {
        assert q == p + [Step(c, q[|p|].key)];
      } else {
        assert q in EntriesRegion(j, p, c, KeysAt(j, p, c));
        assert q in labels;
      }
    }
  }

  lemma EntriesArePlaced(j: Job, created: map<Path, Uuid>, p: Path, c: Name)
    requires forall q {:trigger q in created} :: q in ColumnsRegion(j, p, {c}) && IsNew(j, q) ==> q in created
    ensures EntriesPlaced(j, created, p, c)
  {
    forall k | Live(j, p + [Step(c, k)])
      ensures Placed(j, created, p + [Step(c, k)])
    {
      var q := p + [Step(c, k)];
      assert q[|p|].column == c;
      assert q in ColumnsRegion(j, p, {c});
      assert IsNew(j, q) ==> q in created;
    }
  }

  /** Setting up the entries of one column leaves the row that owns them and its other columns alone. */
  lemma OwnerUnchanged(j: Job, a: State, b: State, p: Path, c: Name, done: set<Name>)
    requires WellPosed(j) && ValidGraph(GraphOf(j.schema, j.base)) && Placed(j, a.created, p)
    requires Stage(j, a, b, ColumnsRegion(j, p, {c}), iset{}, SitesOf(j, ColumnsRegion(j, p, {c})))
    requires Place(j, a.created, p) in a.rows && a.rows[Place(j, a.created, p)] == PartialRow(j, a.created, p, done)
    requires forall q {:trigger q in a.created} :: q in ColumnsRegion(j, p, done) && IsNew(j, q) ==> q in a.created
    ensures Placed(j, b.created, p) && Place(j, b.created, p) == Place(j, a.created, p)
    ensures Place(j, b.created, p) in b.rows && b.rows[Place(j, b.created, p)] == PartialRow(j, b.created, p, done)
    ensures EntriesPlaced(j, b.created, p, c)
  {
    NextColumn(j, p, {}, c);
    assert SameAt(j, a.created, a.rows, b.rows, p);
    CreatedExtends(j, a, b, ColumnsRegion(j, p, {c}), iset{}, SitesOf(j, ColumnsRegion(j, p, {c})));
    PartialStable(j, a.created, b.created, p, done);
    EntriesArePlaced(j, b.created, p, c);
    assert p in a.created ==> p in b.created;
  }

  lemma NothingBelow(j: Job, p: Path)
    requires WellPosed(j) && !Live(j, p) && p != []
    ensures RowRegion(j, p) == iset{} && SitesOf(j, RowRegion(j, p)) == iset{}
  {
    forall q | q in RowRegion(j, p)
      ensures false
    {
      LivePrefix(j, p, q);
    }
  }

  lemma PartialStart(j: Job, created: map<Path, Uuid>, p: Path)
    ensures PartialRow(j, created, p, {}) == StartRow(j, p)
  {
    assert PartialRow(j, created, p, {}).refs == StartRow(j, p).refs;
  }

  /** Since the row was opened in `b` the columns `done` have been written, the columns `todo` have not. */
  ghost predicate ColumnsState(j: Job, b: State, st: State, p: Path, u: Uuid, done: set<Name>, todo: set<Name>) {
    && ValidGraph(GraphOf(j.schema, j.base))
    && Stage(j, b, st, ColumnsRegion(j, p, done), iset{p}, ColumnSites(j, p, done))
    && Untouched(j, st, ColumnsRegion(j, p, todo))
    && Placed(j, st.created, p) && u == Place(j, st.created, p)
    && u in st.rows && st.rows[u] == PartialRow(j, st.created, p, done)
    && (forall q {:trigger q in st.created} :: q in ColumnsRegion(j, p, done) && IsNew(j, q) ==> q in st.created)
    && (forall q {:trigger q in st.labels} :: q in ColumnsRegion(j, p, done) && IsKeyed(j.schema, q) ==> q in st.labels)
  }

  lemma ColumnsBegin(j: Job, a: State, b: State, p: Path)
    requires WellPosed(j) && Opened(j, a, b, p) && ValidGraph(GraphOf(j.schema, j.base)) && Placed(j, b.created, p)
    requires Place(j, b.created, p) in b.rows && b.rows[Place(j, b.created, p)] == PartialRow(j, b.created, p, {})
    requires Untouched(j, a, RowRegion(j, p))
    ensures ColumnsState(j, b, b, p, Place(j, b.created, p), {}, ChildColumns(j, p))
  {
    UntouchedOnceOpened(j, a, b, p);
    EmptyStage(j, b, iset{p});
    assert ColumnsRegion(j, p, {}) == iset{};
    assert ColumnSites(j, p, {}) == iset{};
  }

  lemma ColumnsNext(j: Job, b: State, x: State, y: State, p: Path, u: Uuid, done: set<Name>, todo: set<Name>, c: Name)
    requires WellPosed(j) && ColumnsState(j, b, x, p, u, done, todo) && c in todo && c !in done
    requires ColumnStage(j, x, y, p, c)
    requires u in y.rows && y.rows[u] == PartialRow(j, y.created, p, done + {c})
    requires AllLabelled(j, y, ColumnsRegion(j, p, {c}))
    ensures ColumnsState(j, b, y, p, u, done + {c}, todo - {c})
  {
    NextColumnStage(j, b, x, y, p, done, c);
    UntouchedColumns(j, x, p, todo - {c}, todo);
    StaysUntouchedColumn(j, x, y, p, c, todo - {c});
    NextColumn(j, p, done, c);
    PlacedStays(j, x, y, p, u, ColumnsRegion(j, p, {c}), iset{p}, SitesOf(j, ColumnsRegion(j, p, {c})) + OwnSites(p, {c}));
    LabelsNext(j, x, y, p, done, c);
  }

  lemma PlacedStays(j: Job, x: State, y: State, p: Path, u: Uuid, region: iset<Path>, touched: iset<Path>, sites: iset<Site>)
    requires ValidGraph(GraphOf(j.schema, j.base)) && Stage(j, x, y, region, touched, sites)
    requires Placed(j, x.created, p) && u == Place(j, x.created, p)
    ensures Placed(j, y.created, p) && u == Place(j, y.created, p)
  {
    assert p in x.created ==> p in y.created;
  }

  lemma LabelsNext(j: Job, x: State, y: State, p: Path, done: set<Name>, c: Name)
    requires forall q {:trigger q in y.labels} :: q in x.labels ==> q in y.labels
    requires forall q {:trigger q in x.labels} :: q in ColumnsRegion(j, p, done) && IsKeyed(j.schema, q) ==> q in x.labels
    requires AllLabelled(j, y, ColumnsRegion(j, p, {c}))
    ensures forall q {:trigger q in y.labels} :: q in ColumnsRegion(j, p, done + {c}) && IsKeyed(j.schema, q) ==> q in y.labels
  {
    NextColumn(j, p, done, c);
    forall q | q in ColumnsRegion(j, p, done + {c}) && IsKeyed(j.schema, q)
      ensures q in y.labels
    {
      if q in ColumnsRegion(j, p, done) {
        assert q in x.labels;
      }
    }
  }

  lemma ColumnsEnd(j: Job, a: State, b: State, st: State, p: Path, u: Uuid)
    requires WellPosed(j) && Live(j, p) && Opened(j, a, b, p)
    requires ColumnsState(j, b, st, p, u, ChildColumns(j, p), {})
    ensures Stage(j, a, st, RowRegion(j, p), iset{}, SitesOf(j, RowRegion(j, p)))
    ensures DeepLabelled(j, st.labels, p)
  {
    RowSites(j, p);
    AllColumns(j, p);
    FinishRow(j, a, b, st, p, ColumnSites(j, p, ChildColumns(j, p)));
  }

  /** Emptying a column, setting up and labelling its entries and storing it, put together. */
  lemma ColumnFilled(j: Job, a: State, b: State, d: State, e: State, f: State, p: Path, c: Name)
    requires WellPosed(j) && ValidGraph(GraphOf(j.schema, j.base)) && Live(j, p)
    requires if Exist(j, p).Some? then Stage(j, a, b, iset{}, iset{}, iset{At(p, c)}) else a == b
    requires Stage(j, b, d, ColumnsRegion(j, p, {c}), iset{}, SitesOf(j, ColumnsRegion(j, p, {c})))
    requires Stage(j, d, e, iset{}, iset{p}, iset{}) && Stage(j, e, f, iset{}, iset{p}, iset{})
    requires BelowLabelled(j, d.labels, p, c, KeysAt(j, p, c))
    requires forall k {:trigger p + [Step(c, k)]} ::
               k in KeysAt(j, p, c) && Live(j, p + [Step(c, k)]) && IsKeyed(j.schema, p + [Step(c, k)]) ==> p + [Step(c, k)] in e.labels
    ensures ColumnStage(j, a, f, p, c)
    ensures AllLabelled(j, f, ColumnsRegion(j, p, {c}))
  {
    LabelledColumn(j, d.labels, e.labels, p, c);
    var nowhere: iset<Path>, noSites: iset<Site> := iset{}, iset{};
    StagesCompose(j, d, e, f, nowhere, nowhere, iset{p}, noSites, noSites);
    assert nowhere + nowhere == nowhere && noSites + noSites == noSites;
    ColumnDone(j, a, b, d, f, p, c);
    forall q | q in ColumnsRegion(j, p, {c}) && IsKeyed(j.schema, q)
      ensures q in f.labels
    {
      assert q in e.labels;
    }
  }
}
