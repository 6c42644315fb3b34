/** What a write is meant to make of each row, and how one stage of a write changes the replica. */
module ConfigTarget {
  import opened Options
  import opened Database
  import opened Validation
  import opened Containment
  import opened Deletion
  import opened ConfigTree

  function DataAt(j: Job, p: Path): Data {
    if NodeAt(j.root, p).Some? then NodeAt(j.root, p).value else EMPTY_DATA
  }

  function KeysAt(j: Job, p: Path, c: Name): set<string> {
    if c in DataAt(j, p).children then DataAt(j, p).children[c].entries.Keys else {}
  }

  /** The row at a location: the committed one, or the one created for it. */
  function Place(j: Job, created: map<Path, Uuid>, p: Path): Uuid {
    if Exist(j, p).Some? then Exist(j, p).value else if p in created then created[p] else 0
  }

  predicate Placed(j: Job, created: map<Path, Uuid>, p: Path) {
    Live(j, p) && (Exist(j, p).Some? || p in created)
  }

  // ---------- configuration columns ----------

  /** Overwriting: a mutable column takes the new value, or is emptied when the data does not name it. */
  function TargetConfig(ts: TableSchema, was: map<Name, Value>, data: map<Name, Value>): map<Name, Value> {
    map c | c in was ::
      if c in ts.config && ts.config[c].mutable then (if c in data then data[c] else EmptyLike(was[c])) else was[c]
  }

  function InitialConfig(ts: TableSchema, data: map<Name, Value>): map<Name, Value> {
    map c | c in ts.config :: if c in data then data[c] else ts.config[c].initial
  }

  function InitialRefs(ts: TableSchema): map<Name, RefValue> {
    map c | c in ts.references :: NoRows(ts.references[c].shape)
  }

  function NoRows(shape: Shape): RefValue {
    if shape == Keyed then Map(map[]) else Rows({})
  }

  function InitialRow(s: Schema, t: Name, data: Data): Row
    requires t in s.tables
  {
    Row(t, InitialConfig(s.tables[t], data.config), InitialRefs(s.tables[t]), false)
  }

  // ---------- child columns ----------

  /** A child that the new data does not name but that cannot be deleted. */
  ghost predicate Kept(g: Graph, w: Uuid) {
    w !in g.deletable || !Removable(g, w)
  }

  predicate NamedIn(s: Schema, db: Db, w: Uuid, keys: set<string>) {
    Indexed(s, db, w) && RowIndex(s, db, w) in keys
  }

  /** What is left of a child column once the children that `keys` does not name have been dropped. */
  ghost function Remainder(s: Schema, db: Db, column: RefValue, keys: set<string>): RefValue {
    var g := GraphOf(s, db);
    match column
    case Rows(rows) => Rows(set w | w in rows && (NamedIn(s, db, w, keys) || Kept(g, w)))
    case Map(entries) => Map(map k | k in entries && (k in keys || Kept(g, entries[k])) :: entries[k])
  }

  /** The children that are put up for deletion. */
  ghost function Dropped(s: Schema, db: Db, column: RefValue, keys: set<string>): set<Uuid> {
    var g := GraphOf(s, db);
    match column
    case Rows(rows) => set w | w in rows && !NamedIn(s, db, w, keys) && w in g.deletable
    case Map(entries) => set k | k in entries && k !in keys && entries[k] in g.deletable :: entries[k]
  }

  /** Adds rows under their keys; a list column forgets the keys. */
  function AddRows(column: RefValue, children: map<string, Uuid>): RefValue {
    match column
    case Rows(rows) => Rows(rows + children.Values)
    case Map(entries) => Map(entries + children)
  }

  function OldColumn(j: Job, p: Path, c: Name): RefValue {
    if Exist(j, p).Some? && Exist(j, p).value in j.base && c in j.base[Exist(j, p).value].refs
    then j.base[Exist(j, p).value].refs[c]
    else
      var t := TableAt(j.schema, p);
      NoRows(if t in j.schema.tables && c in j.schema.tables[t].references then j.schema.tables[t].references[c].shape else Many)
  }

  ghost function NewChildren(j: Job, created: map<Path, Uuid>, p: Path, c: Name): map<string, Uuid> {
    map k | k in KeysAt(j, p, c) && Live(j, p + [Step(c, k)]) :: Place(j, created, p + [Step(c, k)])
  }

  ghost function TargetColumn(j: Job, created: map<Path, Uuid>, p: Path, c: Name): RefValue {
    AddRows(Remainder(j.schema, j.base, OldColumn(j, p, c), KeysAt(j, p, c)), NewChildren(j, created, p, c))
  }

  // ---------- whole rows ----------

  /** The row at a location before its children are set up. */
  function StartRow(j: Job, p: Path): Row {
    var t, d := TableAt(j.schema, p), DataAt(j, p);
    if Exist(j, p).Some? && Exist(j, p).value in j.base && t in j.schema.tables then
      var was := j.base[Exist(j, p).value];
      was.(config := TargetConfig(j.schema.tables[t], was.config, d.config))
    else if t in j.schema.tables then InitialRow(j.schema, t, d)
    else Row(t, map[], map[], false)
  }

  /** The row at a location with the child columns `done` set up. */
  ghost function PartialRow(j: Job, created: map<Path, Uuid>, p: Path, done: set<Name>): Row {
    var start := StartRow(j, p);
    start.(refs := map c | c in start.refs :: if c in done then TargetColumn(j, created, p, c) else start.refs[c])
  }

  function ChildColumns(j: Job, p: Path): set<Name> {
    var t := TableAt(j.schema, p);
    if t in j.schema.tables
    then set c | c in j.schema.tables[t].references && j.schema.tables[t].references[c].relation == Child
    else {}
  }

  ghost function BuiltRow(j: Job, created: map<Path, Uuid>, p: Path): Row {
    PartialRow(j, created, p, ChildColumns(j, p))
  }

  /** Whether the configuration columns of a committed row change. */
  predicate Changed(j: Job, p: Path) {
    Exist(j, p).Some? && Exist(j, p).value in j.base && StartRow(j, p).config != j.base[Exist(j, p).value].config
  }

  // ---------- stages of a write ----------

  /** The replica inside the transaction, the rows created so far, and the rows put on the three lists
      of the validator. */
  datatype State = State(
    rows: Db,
    refList: map<(Name, string), Uuid>,
    labels: map<Path, Uuid>,
    created: map<Path, Uuid>,
    creates: set<Uuid>,
    updates: set<Uuid>,
    deletes: multiset<Uuid>)

  ghost predicate CreatedRow(j: Job, rows: Db, refList: map<(Name, string), Uuid>, created: map<Path, Uuid>, q: Path)
    requires q in created
  {
    var v, t := created[q], TableAt(j.schema, q);
    && IsNew(j, q)
    && v in rows && v !in j.base
    && rows[v].table == t
    && (t in j.schema.tables && j.schema.tables[t].indexes != [] ==>
          (t, Last(q).key) in refList && refList[(t, Last(q).key)] == v)
  }

  ghost predicate OldRow(j: Job, rows: Db, v: Uuid)
    requires v in j.base
  {
    && v in rows
    && rows[v].table == j.base[v].table
    && rows[v].internal == j.base[v].internal
    && (!Claimed(j, v) ==> rows[v] == j.base[v])
  }

  ghost predicate Labelled(j: Job, created: map<Path, Uuid>, labels: map<Path, Uuid>, q: Path)
    requires q in labels
  {
    Placed(j, created, q) && labels[q] == Place(j, created, q)
  }

  ghost predicate RowsInv(j: Job, rows: Db) {
    && ValidDb(j.schema, rows)
    && (forall v {:trigger OldRow(j, rows, v)} :: v in j.base ==> OldRow(j, rows, v))
  }

  ghost predicate Injective(created: map<Path, Uuid>) {
    forall p, q {:trigger created[p], created[q]} :: p in created && q in created && created[p] == created[q] ==> p == q
  }

  ghost predicate CreatedInv(j: Job, rows: Db, refList: map<(Name, string), Uuid>, created: map<Path, Uuid>) {
    && (forall q {:trigger CreatedRow(j, rows, refList, created, q)} :: q in created ==>
          CreatedRow(j, rows, refList, created, q))
    && Injective(created)
    && (forall v {:trigger v in rows} :: v in rows ==> v in j.base || v in created.Values)
  }

  /** Only tables that take insertions are listed. */
  ghost predicate Listable(j: Job, refList: map<(Name, string), Uuid>) {
    forall e {:trigger e in refList} :: e in refList ==> e.0 in j.schema.tables && InsertCheck(j.schema, e.0)
  }

  ghost predicate LabelsInv(j: Job, created: map<Path, Uuid>, labels: map<Path, Uuid>) {
    forall q {:trigger Labelled(j, created, labels, q)} :: q in labels ==> Labelled(j, created, labels, q)
  }

  ghost predicate Inv(j: Job, st: State) {
    && RowsInv(j, st.rows)
    && CreatedInv(j, st.rows, st.refList, st.created)
    && LabelsInv(j, st.created, st.labels)
    && Listable(j, st.refList)
    && st.creates == st.created.Values
    && (forall v {:trigger v in st.updates} :: v in st.updates ==> Claimed(j, v))
    && (forall v {:trigger st.deletes[v]} :: v in st.deletes ==> v in j.base && !Claimed(j, v))
  }

  // ---------- what is recorded for the validators ----------

  /** The row of the location above, with its table, or nothing at the top. */
  ghost predicate OwnerIs(j: Job, created: map<Path, Uuid>, q: Path, parent: Option<Owner>) {
    q != []
    && if |q| == 1 then parent == None
       else
         && Placed(j, created, Parent(q))
         && parent == Some(Owner(Place(j, created, Parent(q)), TableAt(j.schema, Parent(q))))
  }

  ghost predicate NewOp(j: Job, created: map<Path, Uuid>, op: ResourceOp) {
    exists q :: q in created && op.row == created[q] && op.table == TableAt(j.schema, q) && OwnerIs(j, created, q, op.parent)
  }

  ghost predicate OldOp(j: Job, created: map<Path, Uuid>, op: ResourceOp) {
    exists q :: IsOld(j, q, op.row) && op.table == TableAt(j.schema, q) && OwnerIs(j, created, q, op.parent)
  }

  /** Every operation comes with the table of its row, and with the row that contains it. */
  ghost predicate Recorded(j: Job, created: map<Path, Uuid>, creates: seq<ResourceOp>, updates: seq<ResourceOp>, deletes: seq<ResourceOp>) {
    && Distinct(creates) && Distinct(updates)
    && (forall op {:trigger NewOp(j, created, op)} :: op in creates ==> NewOp(j, created, op))
    && (forall op {:trigger OldOp(j, created, op)} :: op in updates ==> OldOp(j, created, op))
    && (forall op {:trigger Described(j.schema, j.base, op)} :: op in deletes ==> Described(j.schema, j.base, op))
  }

  lemma OwnerStays(j: Job, a: map<Path, Uuid>, b: map<Path, Uuid>, q: Path, parent: Option<Owner>)
    requires Extends(a, b) && OwnerIs(j, a, q, parent)
    ensures OwnerIs(j, b, q, parent)
  {
  }

  lemma RecordsStay(j: Job, a: map<Path, Uuid>, b: map<Path, Uuid>, creates: seq<ResourceOp>, updates: seq<ResourceOp>, deletes: seq<ResourceOp>)
    requires Extends(a, b) && Recorded(j, a, creates, updates, deletes)
    ensures Recorded(j, b, creates, updates, deletes)
  {
    forall op | op in creates
      ensures NewOp(j, b, op)
    {
      assert NewOp(j, a, op);
      var q :| q in a && op.row == a[q] && op.table == TableAt(j.schema, q) && OwnerIs(j, a, q, op.parent);
      OwnerStays(j, a, b, q, op.parent);
      assert b[q] == a[q];
    }
    forall op | op in updates
      ensures OldOp(j, b, op)
    {
      assert OldOp(j, a, op);
      var q :| IsOld(j, q, op.row) && op.table == TableAt(j.schema, q) && OwnerIs(j, a, q, op.parent);
      OwnerStays(j, a, b, q, op.parent);
    }
  }

  lemma NewRecord(j: Job, created: map<Path, Uuid>, p: Path, u: Uuid, parent: Option<Owner>,
                  creates: seq<ResourceOp>, updates: seq<ResourceOp>, deletes: seq<ResourceOp>)
    requires Recorded(j, created, creates, updates, deletes) && OwnerIs(j, created, p, parent)
    requires p !in created && u !in RowsOf(creates)
    ensures Recorded(j, created[p := u], creates + [ResourceOp(u, TableAt(j.schema, p), parent)], updates, deletes)
  {
    var op, after := ResourceOp(u, TableAt(j.schema, p), parent), created[p := u];
    RecordsStay(j, created, after, creates, updates, deletes);
    OwnerStays(j, created, after, p, parent);
    assert p in after && op.row == after[p];
    assert NewOp(j, after, op);
    assert forall i :: 0 <= i < |creates| ==> creates[i].row in RowsOf(creates);
  }

  lemma OldRecord(j: Job, created: map<Path, Uuid>, p: Path, u: Uuid, parent: Option<Owner>,
                  creates: seq<ResourceOp>, updates: seq<ResourceOp>, deletes: seq<ResourceOp>)
    requires Recorded(j, created, creates, updates, deletes) && OwnerIs(j, created, p, parent)
    requires IsOld(j, p, u) && u !in RowsOf(updates)
    ensures Recorded(j, created, creates, updates + [ResourceOp(u, TableAt(j.schema, p), parent)], deletes)
  {
    var op := ResourceOp(u, TableAt(j.schema, p), parent);
    assert OldOp(j, created, op);
    assert forall i :: 0 <= i < |updates| ==> updates[i].row in RowsOf(updates);
  }

  /** Nothing has been done yet for the locations in `region`. */
  ghost predicate Untouched(j: Job, st: State, region: iset<Path>) {
    && (forall q {:trigger q in st.created} :: q in region ==> q !in st.created)
    && (forall q, r {:trigger IsOld(j, q, r)} :: q in region && IsOld(j, q, r) ==>
          r in st.rows && r in j.base && st.rows[r] == j.base[r] && r !in st.updates)
  }

  /** A child column of a location, gone through for children to drop; the empty path stands for the
      replica itself, with the top-level tables as its columns. */
  datatype Site = At(path: Path, column: Name)

  /** Rows of tables that the configuration does not mention are put up for deletion as well. */
  ghost predicate TopDropped(j: Job, t: Name, w: Uuid) {
    && w in j.base && j.base[w].table == t
    && IsTopLevel(j.schema, t)
    && t !in j.root
    && DeleteCheck(j.schema, t)
  }

  ghost predicate DroppedAt(j: Job, q: Path, c: Name, w: Uuid) {
    if q == [] then TopDropped(j, c, w)
    else
      && Live(j, q) && Exist(j, q).Some?
      && c in ChildColumns(j, q)
      && w in Dropped(j.schema, j.base, OldColumn(j, q, c), KeysAt(j, q, c))
  }

  /** A row that is scheduled for deletion on behalf of one of `places`. */
  ghost predicate Doomed(j: Job, places: iset<Site>, v: Uuid)
    requires ValidGraph(GraphOf(j.schema, j.base))
  {
    exists at, w :: at in places && DroppedAt(j, at.path, at.column, w) && v in PlanSet(GraphOf(j.schema, j.base), w)
  }

  ghost predicate BuiltAt(j: Job, rows: Db, created: map<Path, Uuid>, q: Path) {
    && Placed(j, created, q)
    && Place(j, created, q) in rows
    && rows[Place(j, created, q)] == BuiltRow(j, created, q)
  }

  ghost predicate SameAt(j: Job, created: map<Path, Uuid>, rows: Db, after: Db, q: Path) {
    && Place(j, created, q) in rows
    && Place(j, created, q) in after
    && after[Place(j, created, q)] == rows[Place(j, created, q)]
  }

  /** From `a` to `b` the locations in `region` are written, those in `touched` may be under way, and
      the child columns in `sites` have lost the children that were not named; all else is as it was. */
  ghost predicate Stage(j: Job, a: State, b: State, region: iset<Path>, touched: iset<Path>, sites: iset<Site>)
    requires ValidGraph(GraphOf(j.schema, j.base))
  {
    && Inv(j, b)
    && (forall v {:trigger v in b.rows} :: v in a.rows ==> v in b.rows)
    && (forall q {:trigger q in b.created} :: q in b.created <==> q in a.created || (q in region && IsNew(j, q)))
    && (forall q {:trigger b.created[q]} :: q in a.created && q in b.created ==> b.created[q] == a.created[q])
    && (forall q {:trigger BuiltAt(j, b.rows, b.created, q)} :: q in region ==> BuiltAt(j, b.rows, b.created, q))
    && (forall q {:trigger SameAt(j, a.created, a.rows, b.rows, q)} ::
          q !in region && q !in touched && Placed(j, a.created, q) ==> SameAt(j, a.created, a.rows, b.rows, q))
    && (forall q, r {:trigger IsOld(j, q, r)} :: IsOld(j, q, r) ==>
          (r in b.updates <==> if q in region then Changed(j, q) else r in a.updates))
    && (forall v {:trigger b.deletes[v]} :: b.deletes[v] == a.deletes[v] + if Doomed(j, sites, v) then 1 else 0)
    && (forall q {:trigger q in b.labels} :: q in a.labels ==> q in b.labels)
  }

  ghost predicate AllLabelled(j: Job, st: State, region: iset<Path>) {
    forall q {:trigger q in st.labels} :: q in region && IsKeyed(j.schema, q) ==> q in st.labels
  }

  // ---------- regions ----------

  ghost function RowRegion(j: Job, p: Path): iset<Path> {
    iset q: Path | Live(j, q) && p <= q
  }

  ghost predicate Goes(p: Path, q: Path, c: Name) {
    |p| < |q| && p <= q && q[|p|].column == c
  }

  ghost function EntriesRegion(j: Job, p: Path, c: Name, done: set<string>): iset<Path> {
    iset q: Path | Live(j, q) && Goes(p, q, c) && q[|p|].key in done
  }

  ghost function ColumnsRegion(j: Job, p: Path, done: set<Name>): iset<Path> {
    iset q: Path | Live(j, q) && |p| < |q| && p <= q && q[|p|].column in done
  }

  ghost predicate DownClosed(j: Job, region: iset<Path>) {
    forall q, step {:trigger q + [step]} :: q in region && Live(j, q + [step]) ==> q + [step] in region
  }

  lemma {:induction false} LivePrefix(j: Job, p: Path, q: Path)
    requires WellPosed(j) && Live(j, q) && p <= q && p != []
    ensures Live(j, p)
    decreases |q|
  {
    if |p| < |q| {
      LiveParent(j, q);
      LivePrefix(j, p, Parent(q));
    } else {
      assert p == q;
    }
  }

  /** The step by which a live location lies below `p` leads to an entry of `p`'s data. */
  lemma StepBelow(j: Job, p: Path, q: Path)
    requires WellPosed(j) && Live(j, q) && p != [] && |p| < |q| && p <= q
    ensures Live(j, p) && Live(j, p + [q[|p|]]) && p + [q[|p|]] <= q
    ensures q[|p|].column in ChildColumns(j, p) && q[|p|].key in KeysAt(j, p, q[|p|].column)
  {
    var step := q[|p|];
    assert p + [step] == q[..|p| + 1];
    LivePrefix(j, p + [step], q);
    LivePrefix(j, p, q);
    ChildPath(p, step);
    assert Fits(j, p);
    var d := NodeAt(j.root, p).value;
    assert d.children[step.column] == d.children[step.column];
  }

  lemma NextEntry(j: Job, p: Path, c: Name, done: set<string>, k: string)
    ensures EntriesRegion(j, p, c, done + {k}) == EntriesRegion(j, p, c, done) + RowRegion(j, p + [Step(c, k)])
    ensures k !in done ==> EntriesRegion(j, p, c, done) !! RowRegion(j, p + [Step(c, k)])
  {
    var p' := p + [Step(c, k)];
    forall q: Path | p' <= q
      ensures Goes(p, q, c) && q[|p|].key == k
    {
      assert q[|p|] == p'[|p|];
      assert p <= q;
    }
    forall q: Path | Goes(p, q, c) && q[|p|].key == k
      ensures p' <= q
    {
      assert q[|p|] == Step(c, k);
    }
  }

  lemma AllEntries(j: Job, p: Path, c: Name)
    requires WellPosed(j) && p != []
    ensures EntriesRegion(j, p, c, KeysAt(j, p, c)) == ColumnsRegion(j, p, {c})
  {
    forall q | q in ColumnsRegion(j, p, {c})
      ensures q in EntriesRegion(j, p, c, KeysAt(j, p, c))
    {
      StepBelow(j, p, q);
    }
  }

  lemma NextColumn(j: Job, p: Path, done: set<Name>, c: Name)
    ensures ColumnsRegion(j, p, done + {c}) == ColumnsRegion(j, p, done) + ColumnsRegion(j, p, {c})
    ensures c !in done ==> ColumnsRegion(j, p, done) !! ColumnsRegion(j, p, {c})
    ensures p !in ColumnsRegion(j, p, done + {c})
  {
  }

  lemma AllColumns(j: Job, p: Path)
    requires WellPosed(j) && Live(j, p)
    ensures RowRegion(j, p) == ColumnsRegion(j, p, ChildColumns(j, p)) + iset{p}
  {
    assert p != [];
    forall q | q in RowRegion(j, p) && q != p
      ensures q in ColumnsRegion(j, p, ChildColumns(j, p))
    {
      StepBelow(j, p, q);
    }
  }

  lemma StillBelow(p: Path, q: Path, step: Step)
    requires p <= q
    ensures p <= q + [step]
    ensures |p| < |q| ==> (q + [step])[|p|] == q[|p|]
  {
  }

  lemma EntriesDownClosed(j: Job, p: Path, c: Name, keys: set<string>)
    ensures DownClosed(j, EntriesRegion(j, p, c, keys))
  {
    var region := EntriesRegion(j, p, c, keys);
    forall q, step | q in region && Live(j, q + [step])
      ensures q + [step] in region
    {
      StillBelow(p, q, step);
    }
  }

  lemma ColumnsDownClosed(j: Job, p: Path, columns: set<Name>)
    ensures DownClosed(j, ColumnsRegion(j, p, columns))
  {
    var region := ColumnsRegion(j, p, columns);
    forall q, step | q in region && Live(j, q + [step])
      ensures q + [step] in region
    {
      StillBelow(p, q, step);
    }
  }

  // ---------- rows created elsewhere ----------

  ghost predicate Extends(a: map<Path, Uuid>, b: map<Path, Uuid>) {
    forall p {:trigger b[p]} {:trigger p in b} :: p in a ==> p in b && b[p] == a[p]
  }

  lemma ColumnStable(j: Job, a: map<Path, Uuid>, b: map<Path, Uuid>, q: Path, c: Name)
    requires forall step {:trigger q + [step]} :: IsNew(j, q + [step]) ==> q + [step] in a
    requires Extends(a, b)
    ensures TargetColumn(j, a, q, c) == TargetColumn(j, b, q, c)
  {
    var x, y := NewChildren(j, a, q, c), NewChildren(j, b, q, c);
    forall k | k in x
      ensures x[k] == y[k]
    {
      var p := q + [Step(c, k)];
      assert IsNew(j, p) ==> p in b;
    }
    assert x == y;
  }

  /** A built row stays what it is meant to be while rows are created elsewhere. */
  lemma BuiltStable(j: Job, a: map<Path, Uuid>, b: map<Path, Uuid>, q: Path)
    requires forall step {:trigger q + [step]} :: IsNew(j, q + [step]) ==> q + [step] in a
    requires Extends(a, b)
    ensures BuiltRow(j, a, q) == BuiltRow(j, b, q)
  {
    var x, y := BuiltRow(j, a, q).refs, BuiltRow(j, b, q).refs;
    forall c | c in x
      ensures x[c] == y[c]
    {
      ColumnStable(j, a, b, q, c);
    }
    assert x == y;
  }

  lemma CreatedExtends(j: Job, a: State, b: State, region: iset<Path>, touched: iset<Path>, sites: iset<Site>)
    requires ValidGraph(GraphOf(j.schema, j.base)) && Stage(j, a, b, region, touched, sites)
    ensures Extends(a.created, b.created)
  {
  }

  lemma EmptyStage(j: Job, a: State, touched: iset<Path>)
    requires ValidGraph(GraphOf(j.schema, j.base)) && Inv(j, a) && WellPosed(j)
    ensures Stage(j, a, a, iset{}, touched, iset{})
  {
    forall v
      ensures !Doomed(j, iset{}, v)
    {
    }
    forall q | Placed(j, a.created, q)
      ensures SameAt(j, a.created, a.rows, a.rows, q)
    {
      if Exist(j, q).Some? {
        ExistingRow(j, q);
        assert OldRow(j, a.rows, Exist(j, q).value);
      } else {
        assert CreatedRow(j, a.rows, a.refList, a.created, q);
      }
    }
  }
}
