/** Locations in a configuration tree, and the rows of the replica that they stand for. */
module ConfigTree {
  import opened Options
  import opened Database
  import opened Containment
  import opened Deletion
  import Escape

  /** One step down: into a table or child column, to the entry with this key. */
  datatype Step = Step(column: Name, key: string)
  type Path = seq<Step>
  type Root = map<Name, Children>

  /** What one write works with: the schema, the replica as committed, its index map, the System row
      and the configuration to apply, with the System row's data keyed by "". */
  datatype Job = Job(schema: Schema, base: Db, indexMap: map<(Name, seq<string>), Uuid>, system: Uuid, root: Root)

  function Parent(p: Path): Path
    requires p != []
  {
    p[..|p| - 1]
  }

  function Last(p: Path): Step
    requires p != []
  {
    p[|p| - 1]
  }

  lemma ChildPath(p: Path, step: Step)
    ensures Parent(p + [step]) == p && Last(p + [step]) == step
  {
  }

  function NodeAt(root: Root, p: Path): Option<Data>
    decreases |p|
  {
    if p == [] then None
    else
      var step := Last(p);
      if |p| == 1 then
        if step.column in root && step.key in root[step.column].entries
        then Some(root[step.column].entries[step.key]) else None
      else
        var parent := NodeAt(root, Parent(p));
        if parent.Some? && step.column in parent.value.children && step.key in parent.value.children[step.column].entries
        then Some(parent.value.children[step.column].entries[step.key]) else None
  }

  function TableAt(s: Schema, p: Path): Name
    decreases |p|
  {
    if p == [] then ""
    else if |p| == 1 then p[0].column
    else
      var t := TableAt(s, Parent(p));
      if t in s.tables && Last(p).column in s.tables[t].references
      then s.tables[t].references[Last(p).column].refTable else ""
  }

  /** Whether the path leads into a key/value column. */
  predicate IsKeyed(s: Schema, p: Path) {
    |p| > 1
    && var t := TableAt(s, Parent(p));
    && t in s.tables
    && Last(p).column in s.tables[t].references
    && s.tables[t].references[Last(p).column].shape == Keyed
  }

  // ---------- rows that are already there ----------

  function Lookup(j: Job, t: Name, key: string): Option<Uuid> {
    var e := (t, Escape.UnquoteSplit(key));
    if e in j.indexMap then Some(j.indexMap[e]) else None
  }

  function EntryOf(db: Db, u: Option<Uuid>, c: Name, key: string): Option<Uuid> {
    if u.Some? && u.value in db && c in db[u.value].refs && db[u.value].refs[c].Map? && key in db[u.value].refs[c].entries
    then Some(db[u.value].refs[c].entries[key]) else None
  }

  /** The committed row that the location names. */
  function Exist(j: Job, p: Path): Option<Uuid>
    decreases |p|
  {
    if p == [] then None
    else if |p| == 1 && p[0].column == SYSTEM_TABLE then Some(j.system)
    else if IsKeyed(j.schema, p) then EntryOf(j.base, Exist(j, Parent(p)), Last(p).column, Last(p).key)
    else Lookup(j, TableAt(j.schema, p), Last(p).key)
  }

  /** Whether the location has a row once it has been written: its table may take insertions, and so
      may the tables of the locations that lead to it. */
  predicate Made(j: Job, p: Path)
    decreases |p|
  {
    p != [] && (Exist(j, p).Some? || (&& TableAt(j.schema, p) in j.schema.tables
                                      && InsertCheck(j.schema, TableAt(j.schema, p))
                                      && (|p| == 1 || Made(j, Parent(p)))))
  }

  predicate Live(j: Job, p: Path) {
    NodeAt(j.root, p).Some? && Made(j, p)
  }

  predicate IsNew(j: Job, p: Path) {
    Live(j, p) && Exist(j, p).None?
  }

  predicate IsOld(j: Job, p: Path, r: Uuid) {
    Live(j, p) && Exist(j, p) == Some(r)
  }

  ghost predicate Claimed(j: Job, r: Uuid) {
    exists p :: IsOld(j, p, r)
  }

  // ---------- the index map ----------

  predicate Indexed(s: Schema, db: Db, u: Uuid) {
    && u in db
    && db[u].table in s.tables
    && s.tables[db[u].table].indexes != []
    && Indexable(s.tables[db[u].table], db[u].config)
  }

  function RowKey(s: Schema, db: Db, u: Uuid): seq<string>
    requires Indexed(s, db, u)
  {
    KeyOf(s.tables[db[u].table], db[u].config)
  }

  function RowIndex(s: Schema, db: Db, u: Uuid): string
    requires Indexed(s, db, u)
  {
    Escape.IndexString(RowKey(s, db, u))
  }

  ghost predicate EntryExact(j: Job, e: (Name, seq<string>))
    requires e in j.indexMap
  {
    var u := j.indexMap[e];
    Indexed(j.schema, j.base, u) && j.base[u].table == e.0 && RowKey(j.schema, j.base, u) == e.1
  }

  ghost predicate RowListed(j: Job, u: Uuid)
    requires Indexed(j.schema, j.base, u)
  {
    var e := (j.base[u].table, RowKey(j.schema, j.base, u));
    e in j.indexMap && j.indexMap[e] == u && CleanKey(e.1)
  }

  /** The index map lists exactly the indexed rows of the committed replica. */
  ghost predicate IndexExact(j: Job) {
    && (forall e {:trigger EntryExact(j, e)} :: e in j.indexMap ==> EntryExact(j, e))
    && (forall u {:trigger RowListed(j, u)} :: Indexed(j.schema, j.base, u) ==> RowListed(j, u))
  }

  // ---------- what is asked of a configuration ----------

  predicate RefFits(column: RefColumn, d: RefData) {
    match d
    case Index(_) => column.shape == One
    case IndexSet(_) => column.shape == Many
    case IndexMap(_) => column.shape == Keyed
  }

  /** The data at a location suits its table: references have the shape of their column, children are in
      child columns, and the key of a list or table entry is the index string of the data below it. */
  ghost predicate Fits(j: Job, p: Path)
    requires NodeAt(j.root, p).Some?
  {
    var d, t := NodeAt(j.root, p).value, TableAt(j.schema, p);
    && t in j.schema.tables
    && var ts := j.schema.tables[t];
    && (forall c {:trigger d.refs[c]} :: c in d.refs && IsConfigReference(ts, c) ==> RefFits(ts.references[c], d.refs[c]))
    && (forall c {:trigger d.children[c]} :: c in d.children ==> IsChildColumn(ts, c))
    && (ts.indexes != [] ==>
          && Indexable(ts, d.config)
          && CleanKey(KeyOf(ts, d.config))
          && Last(p).key == IndexOf(ts, d.config))
    && (|p| == 1 ==> ts.parent.None?)
    && (|p| > 1 ==> ts.parent.Some?)
  }

  /** Children do not change parents: a row named in a list column is already in that column. */
  ghost predicate Settled(j: Job, p: Path) {
    |p| > 1 && Exist(j, p).Some? && !IsKeyed(j.schema, p) ==>
      Exist(j, Parent(p)).Some? && InColumn(j.base, Exist(j, Parent(p)).value, Last(p).column, Exist(j, p).value)
  }

  predicate InColumn(db: Db, u: Uuid, c: Name, v: Uuid) {
    u in db && c in db[u].refs && v in Targets(db[u].refs[c])
  }

  /** No two locations name the same row of an indexed table. */
  ghost predicate SameIndex(j: Job, p: Path, q: Path) {
    && NodeAt(j.root, p).Some? && NodeAt(j.root, q).Some?
    && p != [] && q != []
    && TableAt(j.schema, p) == TableAt(j.schema, q)
    && TableAt(j.schema, p) in j.schema.tables
    && j.schema.tables[TableAt(j.schema, p)].indexes != []
    && Last(p).key == Last(q).key
  }

  ghost predicate ValidSystem(j: Job) {
    && j.system in j.base && j.base[j.system].table == SYSTEM_TABLE
    && (forall u {:trigger j.base[u]} :: u in j.base && j.base[u].table == SYSTEM_TABLE ==> u == j.system)
    && SYSTEM_TABLE in j.root
    && (forall k :: k in j.root[SYSTEM_TABLE].entries ==> k == "")
  }

  ghost predicate WellPosed(j: Job) {
    && ValidSchema(j.schema)
    && ValidDb(j.schema, j.base)
    && Forest(j.schema, j.base)
    && IndexExact(j)
    && ValidSystem(j)
    && (forall p {:trigger Fits(j, p)} :: NodeAt(j.root, p).Some? ==> Fits(j, p))
    && (forall p {:trigger Settled(j, p)} :: Live(j, p) ==> Settled(j, p))
    && (forall p, q {:trigger SameIndex(j, p, q)} :: SameIndex(j, p, q) ==> p == q)
  }

  // ---------- facts about locations ----------

  lemma LiveParent(j: Job, p: Path)
    requires WellPosed(j) && Live(j, p) && |p| > 1
    ensures Live(j, Parent(p))
  {
    assert Settled(j, p);
    if Exist(j, p).Some? {
      assert Exist(j, Parent(p)).Some?;
    }
  }

  lemma {:induction false} ExistingRow(j: Job, p: Path)
    requires WellPosed(j) && NodeAt(j.root, p).Some? && Exist(j, p).Some?
    ensures Exist(j, p).value in j.base && j.base[Exist(j, p).value].table == TableAt(j.schema, p)
    decreases |p|
  {
    var r := Exist(j, p).value;
    if |p| == 1 && p[0].column == SYSTEM_TABLE {
    } else if IsKeyed(j.schema, p) {
      ExistingRow(j, Parent(p));
      var u := Exist(j, Parent(p)).value;
      assert ValidTarget(j.schema, j.base, u, Last(p).column, r);
    } else {
      assert EntryExact(j, (TableAt(j.schema, p), Escape.UnquoteSplit(Last(p).key)));
    }
  }

  /** An existing child is in the column of its parent that the path names. */
  lemma ExistingChild(j: Job, p: Path)
    requires WellPosed(j) && Live(j, p) && Exist(j, p).Some? && |p| > 1
    ensures Exist(j, Parent(p)).Some?
    ensures IsChildOf(j.schema, j.base, Exist(j, Parent(p)).value, Last(p).column, Exist(j, p).value)
    ensures IsKeyed(j.schema, p) ==>
              && HasKey(j.schema, j.base, Exist(j, Parent(p)).value, Last(p).column, Last(p).key)
              && j.base[Exist(j, Parent(p)).value].refs[Last(p).column].entries[Last(p).key] == Exist(j, p).value
  {
    assert Settled(j, p);
    LiveParent(j, p);
    ExistingRow(j, Parent(p));
    assert Fits(j, Parent(p));
    var d := NodeAt(j.root, Parent(p)).value;
    assert d.children[Last(p).column] == d.children[Last(p).column];
  }

  lemma KeyedTable(j: Job, p: Path)
    requires WellPosed(j) && NodeAt(j.root, p).Some? && |p| > 1
    ensures TableAt(j.schema, p) in j.schema.tables
    ensures IsKeyed(j.schema, p) <==> j.schema.tables[TableAt(j.schema, p)].indexes == []
  {
    assert Fits(j, Parent(p));
    assert Fits(j, p);
    var d := NodeAt(j.root, Parent(p)).value;
    assert d.children[Last(p).column] == d.children[Last(p).column];
    assert ValidColumn(j.schema, TableAt(j.schema, Parent(p)), Last(p).column);
  }

  lemma TopTable(j: Job, p: Path)
    requires WellPosed(j) && NodeAt(j.root, p).Some? && |p| == 1
    ensures TableAt(j.schema, p) in j.schema.tables
    ensures p[0].column == SYSTEM_TABLE <==> j.schema.tables[TableAt(j.schema, p)].indexes == []
    ensures p[0].column == SYSTEM_TABLE ==> p == [Step(SYSTEM_TABLE, "")]
  {
    assert Fits(j, p);
    assert ValidTable(j.schema, TableAt(j.schema, p));
  }

  /** The key of an indexed location is the index string of the committed row it names. */
  lemma LookedUpKey(j: Job, p: Path)
    requires WellPosed(j) && NodeAt(j.root, p).Some? && Exist(j, p).Some?
    requires TableAt(j.schema, p) in j.schema.tables && j.schema.tables[TableAt(j.schema, p)].indexes != []
    ensures Indexed(j.schema, j.base, Exist(j, p).value)
    ensures RowIndex(j.schema, j.base, Exist(j, p).value) == Last(p).key
  {
    var t := TableAt(j.schema, p);
    assert Fits(j, p);
    if |p| == 1 {
      TopTable(j, p);
    } else {
      KeyedTable(j, p);
    }
    assert EntryExact(j, (t, Escape.UnquoteSplit(Last(p).key)));
    IndexOfSplits(j.schema.tables[t], NodeAt(j.root, p).value.config);
  }

  lemma SameIndexedRow(j: Job, p: Path, q: Path, t: Name)
    requires WellPosed(j) && NodeAt(j.root, p).Some? && NodeAt(j.root, q).Some?
    requires Exist(j, p).Some? && Exist(j, p) == Exist(j, q)
    requires t == TableAt(j.schema, p) == TableAt(j.schema, q) && t in j.schema.tables
    requires j.schema.tables[t].indexes != []
    ensures p == q
  {
    LookedUpKey(j, p);
    LookedUpKey(j, q);
    assert SameIndex(j, p, q);
  }

  lemma SameKeyedRow(j: Job, p: Path, q: Path)
    requires WellPosed(j) && Live(j, p) && Live(j, q) && |p| > 1 && |q| > 1
    requires IsKeyed(j.schema, p) && IsKeyed(j.schema, q)
    requires Exist(j, p).Some? && Exist(j, p) == Exist(j, q)
    ensures Exist(j, Parent(p)).Some? && Exist(j, Parent(p)) == Exist(j, Parent(q))
    ensures Last(p) == Last(q)
  {
    ExistingChild(j, p);
    ExistingChild(j, q);
  }

  /** A committed row is named at one location only. */
  lemma {:induction false} ExistInjective(j: Job, p: Path, q: Path)
    requires WellPosed(j) && Live(j, p) && Live(j, q)
    requires Exist(j, p).Some? && Exist(j, p) == Exist(j, q)
    ensures p == q
    decreases |p|
  {
    ExistingRow(j, p);
    ExistingRow(j, q);
    var t := TableAt(j.schema, p);
    SameKind(j, p, q, t);
    if j.schema.tables[t].indexes != [] {
      SameIndexedRow(j, p, q, t);
    } else if |p| > 1 {
      SameKeyedRow(j, p, q);
      LiveParent(j, p);
      LiveParent(j, q);
      ExistInjective(j, Parent(p), Parent(q));
      assert p == Parent(p) + [Last(p)];
      assert q == Parent(q) + [Last(q)];
    }
  }

  lemma SameKind(j: Job, p: Path, q: Path, t: Name)
    requires WellPosed(j) && NodeAt(j.root, p).Some? && NodeAt(j.root, q).Some?
    requires t == TableAt(j.schema, p) == TableAt(j.schema, q)
    ensures t in j.schema.tables && p != [] && q != []
    ensures j.schema.tables[t].indexes == [] && |p| == 1 ==> p == q
    ensures j.schema.tables[t].indexes == [] && |p| > 1 ==> |q| > 1 && IsKeyed(j.schema, p) && IsKeyed(j.schema, q)
  {
    assert Fits(j, p);
    assert Fits(j, q);
    if |p| == 1 {
      TopTable(j, p);
    } else {
      KeyedTable(j, p);
    }
    if |q| == 1 {
      TopTable(j, q);
    } else {
      KeyedTable(j, q);
    }
  }

  /** Whoever contains a named row is named. */
  lemma ClaimedOwner(j: Job, u: Uuid, c: Name, v: Uuid)
    requires WellPosed(j) && Claimed(j, v) && IsChildOf(j.schema, j.base, u, c, v)
    ensures Claimed(j, u)
  {
    var p :| IsOld(j, p, v);
    ExistingRow(j, p);
    KidIsLower(j.schema, j.base, u, c, v);
    assert ValidColumn(j.schema, j.base[u].table, c);
    assert Fits(j, p);
    if |p| > 1 {
      ExistingChild(j, p);
      LiveParent(j, p);
      assert IsOld(j, Parent(p), u);
    }
  }

  lemma {:induction false} UnclaimedBelow(j: Job, g: Graph, w: Uuid, x: Uuid)
    requires WellPosed(j) && g == GraphOf(j.schema, j.base) && ValidGraph(g)
    requires !Claimed(j, w) && x in Below(g, w)
    ensures !Claimed(j, x)
    decreases if w in g.rank then g.rank[w] else 0
  {
    if x != w {
      var v :| v in g.kids[w] && x in Below(g, v);
      var c := KidsAreChildren(j.schema, j.base, w, v);
      if Claimed(j, v) {
        ClaimedOwner(j, w, c, v);
      }
      UnclaimedBelow(j, g, v, x);
    }
  }
}
