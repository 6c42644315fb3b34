/** References between tables: which columns refer to which tables, removing a row from all of them
    (opsrest/utils/utils.py, delete_all_references), and which table contains which
    (opslib/restparser.py). */
module References {
  import opened Options

  type Name = string
  type Uuid = nat

  datatype Relation = Child | Parent | Reference
  datatype Column = Column(refTable: Name, relation: Relation)

  /** The reference columns of every table. */
  type Tables = map<Name, map<Name, Column>>

  // ---------- which columns refer to a table ----------

  /** For every table that refers to `target`, the columns that do. */
  function Referring(tables: Tables, target: Name): map<Name, set<Name>> {
    map t | t in tables && ColumnsTo(tables[t], target) != {} :: ColumnsTo(tables[t], target)
  }

  function ColumnsTo(columns: map<Name, Column>, target: Name): set<Name> {
    set c | c in columns && columns[c].refTable == target
  }

  method GetReferencesTables(tables: Tables, target: Name) returns (referring: map<Name, set<Name>>)
    ensures referring == Referring(tables, target)
  {
    referring := map[];
    var todo := tables.Keys;
    while todo != {}
      invariant todo <= tables.Keys
      invariant referring == map t | t in tables.Keys - todo && ColumnsTo(tables[t], target) != {} :: ColumnsTo(tables[t], target)
      decreases todo
    {
      var t :| t in todo;
      todo := todo - {t};
      var columns := FindColumns(tables[t], target);
      if columns != {} {
        referring := referring[t := columns];
      }
    }
  }

  method FindColumns(columns: map<Name, Column>, target: Name) returns (found: set<Name>)
    ensures found == ColumnsTo(columns, target)
  {
    found := {};
    var todo := columns.Keys;
    while todo != {}
      invariant todo <= columns.Keys
      invariant found == set c | c in columns.Keys - todo && columns[c].refTable == target
      decreases todo
    {
      var c :| c in todo;
      todo := todo - {c};
      if columns[c].refTable == target {
        found := found + {c};
      }
    }
  }

  /** The table of referring columns is the inverse of the reference relation. */
  lemma ReferringIsInverse(tables: Tables, t: Name, c: Name, target: Name)
    requires t in tables && c in tables[t]
    ensures t in Referring(tables, target) && c in Referring(tables, target)[t] <==> tables[t][c].refTable == target
  {
    if tables[t][c].refTable == target {
      assert c in ColumnsTo(tables[t], target);
    }
  }

  // ---------- removing a row from all references ----------

  datatype Row = Row(table: Name, refs: map<Name, seq<Uuid>>)
  type Db = map<Uuid, Row>

  ghost predicate Refers(db: Db, v: Uuid, c: Name, u: Uuid) {
    v in db && c in db[v].refs && u in db[v].refs[c]
  }

  ghost predicate ValidDb(tables: Tables, db: Db) {
    && (forall v :: v in db ==> db[v].table in tables && db[v].refs.Keys == tables[db[v].table].Keys)
    && (forall v, c, u {:trigger Refers(db, v, c, u)} :: Refers(db, v, c, u) && u in db ==>
          tables[db[v].table][c].refTable == db[u].table)
  }

  function Without(list: seq<Uuid>, u: Uuid): seq<Uuid> {
    if list == [] then []
    else Without(list[..|list| - 1], u) + if list[|list| - 1] != u then [list[|list| - 1]] else []
  }

  /** All other entries stay, as often as before. */
  lemma {:induction false} WithoutKeeps(list: seq<Uuid>, u: Uuid, x: Uuid)
    ensures multiset(Without(list, u))[x] == if x == u then 0 else multiset(list)[x]
  {
    if list != [] {
      var n := |list| - 1;
      WithoutKeeps(list[..n], u, x);
      assert list == list[..n] + [list[n]];
    }
  }

  /** How many of the first k entries are not `u`. */
  function Others(list: seq<Uuid>, u: Uuid, k: nat): nat
    requires k <= |list|
  {
    if k == 0 then 0 else Others(list, u, k - 1) + if list[k - 1] != u then 1 else 0
  }

  lemma {:induction false} OthersPrefix(list: seq<Uuid>, u: Uuid, n: nat, k: nat)
    requires k <= n <= |list|
    ensures Others(list[..n], u, k) == Others(list, u, k)
  {
    if k > 0 {
      OthersPrefix(list, u, n, k - 1);
    }
  }

  /** And they stay in order: each comes at the place that its number among the others gives. */
  lemma {:induction false} WithoutInOrder(list: seq<Uuid>, u: Uuid, k: nat)
    requires k < |list| && list[k] != u
    ensures |Without(list, u)| == Others(list, u, |list|)
    ensures Others(list, u, k) < |Without(list, u)| && Without(list, u)[Others(list, u, k)] == list[k]
    decreases |list|
  {
    var n := |list| - 1;
    WithoutLength(list, u);
    if k < n {
      WithoutInOrder(list[..n], u, k);
      OthersPrefix(list, u, n, k);
    } else {
      WithoutLength(list[..n], u);
      OthersPrefix(list, u, n, n);
    }
  }

  lemma {:induction false} WithoutLength(list: seq<Uuid>, u: Uuid)
    ensures |Without(list, u)| == Others(list, u, |list|)
  {
    if list != [] {
      WithoutLength(list[..|list| - 1], u);
      OthersPrefix(list, u, |list| - 1, |list| - 1);
    }
  }

  function RowWithout(columns: set<Name>, row: Row, u: Uuid): Row {
    row.(refs := map c | c in row.refs :: if c in columns then Without(row.refs[c], u) else row.refs[c])
  }

  /** The replica with `u` taken out of all columns that refer to its table. */
  function RemovedFrom(tables: Tables, db: Db, u: Uuid, t: Name): Db {
    map v | v in db ::
      if db[v].table in Referring(tables, t) then RowWithout(Referring(tables, t)[db[v].table], db[v], u) else db[v]
  }

  /** No column of any row refers to the row afterwards; every column keeps its other entries. */
  lemma RemovalIsComplete(tables: Tables, db: Db, u: Uuid, v: Uuid, c: Name)
    requires ValidDb(tables, db) && u in db && v in db && c in db[v].refs
    ensures var after := RemovedFrom(tables, db, u, db[u].table);
            && after.Keys == db.Keys && after[v].table == db[v].table && after[v].refs.Keys == db[v].refs.Keys
            && after[v].refs[c] == Without(db[v].refs[c], u)
            && !Refers(after, v, c, u)
  {
    var t := db[u].table;
    ReferringIsInverse(tables, db[v].table, c, t);
    WithoutKeeps(db[v].refs[c], u, u);
    if tables[db[v].table][c].refTable != t {
      assert !Refers(db, v, c, u);
      NothingWithout(db[v].refs[c], u);
    }
  }

  lemma {:induction false} NothingWithout(list: seq<Uuid>, u: Uuid)
    requires u !in list
    ensures Without(list, u) == list
  {
    if list != [] {
      var n := |list| - 1;
      NothingWithout(list[..n], u);
      assert list == list[..n] + [list[n]];
    }
  }

  class Replica {
    const tables: Tables
    var rows: Db

    constructor (tables: Tables, rows: Db)
      ensures this.tables == tables && this.rows == rows
    {
      this.tables, this.rows := tables, rows;
    }

    /** Takes `u` out of one column of one row. */
    method DeleteRowReference(v: Uuid, c: Name, u: Uuid)
      requires v in rows && c in rows[v].refs
      modifies this`rows
      ensures rows == old(rows)[v := old(rows)[v].(refs := old(rows)[v].refs[c := Without(old(rows)[v].refs[c], u)])]
    {
      var list := rows[v].refs[c];
      var updated: seq<Uuid> := [];
      var i := 0;
      while i < |list|
        invariant 0 <= i <= |list|
        invariant updated == Without(list[..i], u)
      {
        assert list[..i + 1][..i] == list[..i];
        if list[i] != u {
          updated := updated + [list[i]];
        }
        i := i + 1;
      }
      assert list[..|list|] == list;
      rows := rows[v := rows[v].(refs := rows[v].refs[c := updated])];
    }

    /** Takes `u` out of the given columns of one row. */
    method DeleteFromRow(v: Uuid, columns: set<Name>, u: Uuid)
      requires v in rows && columns <= rows[v].refs.Keys
      modifies this`rows
      ensures rows == old(rows)[v := RowWithout(columns, old(rows)[v], u)]
    {
      var todo := columns;
      ghost var row, start := rows[v], rows;
      assert RowWithout({}, row, u).refs == row.refs && columns - todo == {};
      while todo != {}
        invariant todo <= columns
        invariant rows == start[v := RowWithout(columns - todo, row, u)]
        decreases todo
      {
        var c :| c in todo;
        NextColumn(row, columns - todo, c, u);
        assert columns - todo + {c} == columns - (todo - {c});
        DeleteRowReference(v, c, u);
        todo := todo - {c};
      }
      assert columns - todo == columns;
    }

    lemma NextColumn(row: Row, done: set<Name>, c: Name, u: Uuid)
      requires c in row.refs && c !in done
      ensures var before := RowWithout(done, row, u);
              c in before.refs && before.(refs := before.refs[c := Without(before.refs[c], u)]) == RowWithout(done + {c}, row, u)
    {
      assert RowWithout(done + {c}, row, u).refs == RowWithout(done, row, u).refs[c := Without(row.refs[c], u)];
    }

    /** Takes a row out of all reference columns of the replica. */
    method DeleteAllReferences(u: Uuid)
      requires ValidDb(tables, rows) && u in rows
      modifies this`rows
      ensures rows == RemovedFrom(tables, old(rows), u, old(rows)[u].table)
    {
      var t := rows[u].table;
      var referring := GetReferencesTables(tables, t);
      ghost var start := rows;
      var todo := rows.Keys;
      while todo != {}
        invariant todo <= start.Keys && rows.Keys == start.Keys
        invariant forall v :: v in todo ==> rows[v] == start[v]
        invariant forall v :: v in start.Keys - todo ==> rows[v] == RemovedFrom(tables, start, u, t)[v]
        decreases todo
      {
        var v :| v in todo;
        if rows[v].table in referring {
          DeleteFromRow(v, referring[rows[v].table], u);
        }
        todo := todo - {v};
      }
      assert rows == RemovedFrom(tables, start, u, t);
    }
  }

  // ---------- which table contains which ----------

  datatype Links = Links(parent: map<Name, Option<Name>>, children: map<Name, seq<Name>>)

  ghost predicate ValidTables(tables: Tables) {
    forall t, c :: t in tables && c in tables[t] ==> tables[t][c].refTable in tables
  }

  /** Table `t` has a column in `seen` that holds rows of `child`. */
  ghost predicate HoldsIn(tables: Tables, seen: set<(Name, Name)>, t: Name, child: Name) {
    exists c :: (t, c) in seen && t in tables && c in tables[t] && tables[t][c] == Column(child, Child)
  }

  /** Table `child` has a column in `seen` that points back at `t`. */
  ghost predicate PointsIn(tables: Tables, seen: set<(Name, Name)>, child: Name, t: Name) {
    exists c :: (child, c) in seen && child in tables && c in tables[child] && tables[child][c] == Column(t, Parent)
  }

  /** `x` is an entry of the children of `t`: a child column, or a table that points back. */
  ghost predicate ChildIn(tables: Tables, seen: set<(Name, Name)>, t: Name, x: Name) {
    || ((t, x) in seen && t in tables && x in tables[t] && tables[t][x].relation == Child)
    || PointsIn(tables, seen, x, t)
  }

  /** What the columns in `seen` say about the parent of `t`.  A parent column outweighs child columns of
      other tables. */
  ghost predicate ParentRight(tables: Tables, seen: set<(Name, Name)>, links: Links, t: Name)
    requires t in links.parent
  {
    && (links.parent[t].None? <==> forall p :: !HoldsIn(tables, seen, p, t) && !PointsIn(tables, seen, t, p))
    && (links.parent[t].Some? ==>
          var p := links.parent[t].value;
          && p in tables
          && (PointsIn(tables, seen, t, p) || (HoldsIn(tables, seen, p, t) && forall q :: !PointsIn(tables, seen, t, q))))
  }

  ghost predicate ChildrenRight(tables: Tables, seen: set<(Name, Name)>, links: Links, t: Name)
    requires t in links.children
  {
    forall x {:trigger ChildIn(tables, seen, t, x)} :: x in links.children[t] <==> ChildIn(tables, seen, t, x)
  }

  ghost predicate LinkedBy(tables: Tables, seen: set<(Name, Name)>, links: Links, t: Name)
    requires t in links.parent && t in links.children
  {
    ParentRight(tables, seen, links, t) && ChildrenRight(tables, seen, links, t)
  }

  ghost predicate Linked(tables: Tables, seen: set<(Name, Name)>, links: Links) {
    && links.parent.Keys == links.children.Keys == tables.Keys
    && (forall t {:trigger LinkedBy(tables, seen, links, t)} :: t in tables ==> LinkedBy(tables, seen, links, t))
  }

  ghost function AllColumns(tables: Tables): set<(Name, Name)> {
    set t, c | t in tables && c in tables[t] :: (t, c)
  }

  function AfterColumn(tables: Tables, links: Links, t: Name, c: Name): Links
    requires t in tables && c in tables[t] && tables[t][c].refTable in tables
    requires links.parent.Keys == links.children.Keys == tables.Keys
  {
    var r := tables[t][c].refTable;
    match tables[t][c].relation
    case Child =>
      Links(if links.parent[r].None? then links.parent[r := Some(t)] else links.parent,
            links.children[t := links.children[t] + [c]])
    case Parent =>
      Links(links.parent[t := Some(r)],
            if t !in links.children[r] then links.children[r := links.children[r] + [t]] else links.children)
    case Reference => links
  }

  lemma SeenMore(tables: Tables, seen: set<(Name, Name)>, t: Name, c: Name, p: Name, x: Name)
    requires t in tables && c in tables[t]
    ensures HoldsIn(tables, seen + {(t, c)}, p, x) <==> HoldsIn(tables, seen, p, x) || (p == t && tables[t][c] == Column(x, Child))
    ensures PointsIn(tables, seen + {(t, c)}, x, p) <==> PointsIn(tables, seen, x, p) || (x == t && tables[t][c] == Column(p, Parent))
  {
    if HoldsIn(tables, seen, p, x) {
      var d :| (p, d) in seen && p in tables && d in tables[p] && tables[p][d] == Column(x, Child);
      assert (p, d) in seen + {(t, c)};
    }
    if PointsIn(tables, seen, x, p) {
      var d :| (x, d) in seen && x in tables && d in tables[x] && tables[x][d] == Column(p, Parent);
      assert (x, d) in seen + {(t, c)};
    }
    assert (t, c) in seen + {(t, c)};
  }

  /** What one more column adds to what has been seen. */
  ghost predicate Adds(tables: Tables, seen: set<(Name, Name)>, more: set<(Name, Name)>, t: Name, column: Column) {
    && (forall p, x {:trigger HoldsIn(tables, more, p, x)} ::
          HoldsIn(tables, more, p, x) <==> HoldsIn(tables, seen, p, x) || (p == t && column == Column(x, Child)))
    && (forall p, x {:trigger PointsIn(tables, more, x, p)} ::
          PointsIn(tables, more, x, p) <==> PointsIn(tables, seen, x, p) || (x == t && column == Column(p, Parent)))
  }

  lemma ColumnAdds(tables: Tables, seen: set<(Name, Name)>, t: Name, c: Name)
    requires t in tables && c in tables[t]
    ensures Adds(tables, seen, seen + {(t, c)}, t, tables[t][c])
  {
    forall p, x
      ensures HoldsIn(tables, seen + {(t, c)}, p, x) <==> HoldsIn(tables, seen, p, x) || (p == t && tables[t][c] == Column(x, Child))
      ensures PointsIn(tables, seen + {(t, c)}, x, p) <==> PointsIn(tables, seen, x, p) || (x == t && tables[t][c] == Column(p, Parent))
    {
      SeenMore(tables, seen, t, c, p, x);
    }
  }

  /** A child column makes its table a parent where there is none yet. */
  lemma ParentAfterChild(tables: Tables, seen: set<(Name, Name)>, more: set<(Name, Name)>, links: Links, after: Links, t: Name, x: Name, r: Name)
    requires Adds(tables, seen, more, t, Column(r, Child)) && t in tables && x in links.parent && x in after.parent
    requires ParentRight(tables, seen, links, x)
    requires after.parent[x] == if x == r && links.parent[x].None? then Some(t) else links.parent[x]
    ensures ParentRight(tables, more, after, x)
  {
    assert forall p :: PointsIn(tables, more, x, p) <==> PointsIn(tables, seen, x, p);
    if x == r {
      assert HoldsIn(tables, more, t, x);
    }
  }

  /** A parent column makes the table that it leads to the parent of its own. */
  lemma ParentAfterParent(tables: Tables, seen: set<(Name, Name)>, more: set<(Name, Name)>, links: Links, after: Links, t: Name, x: Name, r: Name)
    requires Adds(tables, seen, more, t, Column(r, Parent)) && r in tables && x in links.parent && x in after.parent
    requires ParentRight(tables, seen, links, x)
    requires after.parent[x] == if x == t then Some(r) else links.parent[x]
    ensures ParentRight(tables, more, after, x)
  {
    assert forall p :: HoldsIn(tables, more, p, x) <==> HoldsIn(tables, seen, p, x);
    if x == t {
      assert PointsIn(tables, more, x, r);
    }
  }

  lemma ParentAfterReference(tables: Tables, seen: set<(Name, Name)>, more: set<(Name, Name)>, links: Links, t: Name, x: Name, r: Name)
    requires Adds(tables, seen, more, t, Column(r, Reference)) && x in links.parent && ParentRight(tables, seen, links, x)
    ensures ParentRight(tables, more, links, x)
  {
    assert forall p :: HoldsIn(tables, more, p, x) <==> HoldsIn(tables, seen, p, x);
    assert forall p :: PointsIn(tables, more, x, p) <==> PointsIn(tables, seen, x, p);
  }

  lemma ParentAfter(tables: Tables, seen: set<(Name, Name)>, links: Links, t: Name, c: Name, x: Name)
    requires ValidTables(tables) && Linked(tables, seen, links) && t in tables && c in tables[t] && x in tables
    ensures ParentRight(tables, seen + {(t, c)}, AfterColumn(tables, links, t, c), x)
  {
    var more, after, r := seen + {(t, c)}, AfterColumn(tables, links, t, c), tables[t][c].refTable;
    assert LinkedBy(tables, seen, links, x);
    ColumnAdds(tables, seen, t, c);
    match tables[t][c].relation
    case Child => ParentAfterChild(tables, seen, more, links, after, t, x, r);
    case Parent => ParentAfterParent(tables, seen, more, links, after, t, x, r);
    case Reference => ParentAfterReference(tables, seen, more, links, t, x, r);
  }

  lemma ChildSeen(tables: Tables, seen: set<(Name, Name)>, t: Name, c: Name, p: Name, y: Name)
    requires t in tables && c in tables[t]
    ensures ChildIn(tables, seen + {(t, c)}, p, y) <==>
              || ChildIn(tables, seen, p, y)
              || (p == t && y == c && tables[t][c].relation == Child)
              || (y == t && tables[t][c] == Column(p, Parent))
  {
    SeenMore(tables, seen, t, c, p, y);
  }

  lemma ChildrenAfter(tables: Tables, seen: set<(Name, Name)>, links: Links, t: Name, c: Name, x: Name)
    requires ValidTables(tables) && Linked(tables, seen, links) && t in tables && c in tables[t] && x in tables
    ensures ChildrenRight(tables, seen + {(t, c)}, AfterColumn(tables, links, t, c), x)
  {
    var more, after := seen + {(t, c)}, AfterColumn(tables, links, t, c);
    assert LinkedBy(tables, seen, links, x);
    forall y
      ensures y in after.children[x] <==> ChildIn(tables, more, x, y)
    {
      ChildSeen(tables, seen, t, c, x, y);
      assert y in links.children[x] <==> ChildIn(tables, seen, x, y);
    }
  }

  lemma ColumnLinks(tables: Tables, seen: set<(Name, Name)>, links: Links, t: Name, c: Name, x: Name)
    requires ValidTables(tables) && Linked(tables, seen, links) && t in tables && c in tables[t] && x in tables
    ensures LinkedBy(tables, seen + {(t, c)}, AfterColumn(tables, links, t, c), x)
  {
    ParentAfter(tables, seen, links, t, c, x);
    ChildrenAfter(tables, seen, links, t, c, x);
  }

  lemma ColumnKeepsLinked(tables: Tables, seen: set<(Name, Name)>, links: Links, t: Name, c: Name)
    requires ValidTables(tables) && Linked(tables, seen, links) && t in tables && c in tables[t]
    ensures Linked(tables, seen + {(t, c)}, AfterColumn(tables, links, t, c))
  {
    forall x | x in tables
      ensures LinkedBy(tables, seen + {(t, c)}, AfterColumn(tables, links, t, c), x)
    {
      ColumnLinks(tables, seen, links, t, c, x);
    }
  }

  ghost function ColumnsOf(tables: Tables, t: Name, columns: set<Name>): set<(Name, Name)> {
    set c | c in columns :: (t, c)
  }

  ghost function ColumnsIn(tables: Tables, some: set<Name>): set<(Name, Name)>
    requires some <= tables.Keys
  {
    set t, c | t in some && c in tables[t] :: (t, c)
  }

  /** Enters one column: its table as a parent, itself as a child. */
  method BackfillColumn(tables: Tables, links: Links, t: Name, c: Name) returns (after: Links)
    requires t in tables && c in tables[t] && tables[t][c].refTable in tables
    requires links.parent.Keys == links.children.Keys == tables.Keys
    ensures after == AfterColumn(tables, links, t, c)
  {
    after := links;
    var r := tables[t][c].refTable;
    match tables[t][c].relation
    case Child =>
      after := after.(children := after.children[t := after.children[t] + [c]]);
      if after.parent[r].None? {
        after := after.(parent := after.parent[r := Some(t)]);
      }
    case Parent =>
      if t !in after.children[r] {
        after := after.(children := after.children[r := after.children[r] + [t]]);
      }
      after := after.(parent := after.parent[t := Some(r)]);
    case Reference =>
  }

  method BackfillTable(tables: Tables, links: Links, t: Name, ghost seen: set<(Name, Name)>) returns (after: Links)
    requires ValidTables(tables) && Linked(tables, seen, links) && t in tables
    ensures Linked(tables, seen + ColumnsOf(tables, t, tables[t].Keys), after)
  {
    after := links;
    var todo := tables[t].Keys;
    ghost var done: set<Name> := {};
    assert seen + ColumnsOf(tables, t, {}) == seen;
    while todo != {}
      invariant done !! todo && done + todo == tables[t].Keys
      invariant Linked(tables, seen + ColumnsOf(tables, t, done), after)
      decreases todo
    {
      var c :| c in todo;
      ColumnKeepsLinked(tables, seen + ColumnsOf(tables, t, done), after, t, c);
      assert seen + ColumnsOf(tables, t, done) + {(t, c)} == seen + ColumnsOf(tables, t, done + {c});
      after := BackfillColumn(tables, after, t, c);
      todo, done := todo - {c}, done + {c};
    }
    assert done == tables[t].Keys;
  }

  /** Fills in parents and children, in whatever order tables and columns come. */
  method Backfill(tables: Tables) returns (links: Links)
    requires ValidTables(tables)
    ensures Linked(tables, AllColumns(tables), links)
  {
    links := Links(map t | t in tables :: None, map t | t in tables :: []);
    var todo := tables.Keys;
    ghost var done: set<Name> := {};
    NothingLinked(tables, links);
    while todo != {}
      invariant done !! todo && done + todo == tables.Keys
      invariant Linked(tables, ColumnsIn(tables, done), links)
      decreases todo
    {
      var t :| t in todo;
      links := BackfillTable(tables, links, t, ColumnsIn(tables, done));
      assert ColumnsIn(tables, done) + ColumnsOf(tables, t, tables[t].Keys) == ColumnsIn(tables, done + {t});
      todo, done := todo - {t}, done + {t};
    }
    assert done == tables.Keys && ColumnsIn(tables, done) == AllColumns(tables);
  }

  lemma NothingLinked(tables: Tables, links: Links)
    requires links == Links(map t | t in tables :: None, map t | t in tables :: [])
    ensures Linked(tables, ColumnsIn(tables, {}), links)
  {
    forall t | t in tables
      ensures LinkedBy(tables, ColumnsIn(tables, {}), links, t)
    {
    }
  }

  /** `x` is reached from a table without a parent by going from tables to their children. */
  ghost predicate Reached(tables: Tables, links: Links, x: Name, steps: nat)
    requires Linked(tables, AllColumns(tables), links) && x in tables
    decreases steps
  {
    || links.parent[x].None?
    || (steps > 0 && exists p, e :: p in tables && e in links.children[p] && LeadsTo(tables, p, e, x) && Reached(tables, links, p, steps - 1))
  }

  /** The entry `e` among the children of `p` stands for table `x`. */
  ghost predicate LeadsTo(tables: Tables, p: Name, e: Name, x: Name) {
    || (p in tables && e in tables[p] && tables[p][e] == Column(x, Child))
    || e == x
  }

  /** A table has no parent exactly when no child column holds it and it has no parent column. */
  lemma ParentlessExactly(tables: Tables, links: Links, x: Name)
    requires Linked(tables, AllColumns(tables), links) && x in tables
    ensures links.parent[x].None? <==>
              && (forall t, c :: t in tables && c in tables[t] ==> tables[t][c] != Column(x, Child))
              && (forall c :: c in tables[x] ==> tables[x][c].relation != Parent)
  {
    var seen := AllColumns(tables);
    assert LinkedBy(tables, seen, links, x);
    forall t, c | t in tables && c in tables[t]
      ensures tables[t][c] == Column(x, Child) ==> HoldsIn(tables, seen, t, x)
      ensures t == x && tables[t][c].relation == Parent ==> PointsIn(tables, seen, x, tables[t][c].refTable)
    {
      assert (t, c) in seen;
    }
  }

  /** Every parent lists its child. */
  lemma ParentListsChild(tables: Tables, links: Links, x: Name) returns (e: Name)
    requires ValidTables(tables) && Linked(tables, AllColumns(tables), links) && x in tables && links.parent[x].Some?
    ensures var p := links.parent[x].value; p in tables && e in links.children[p] && LeadsTo(tables, p, e, x)
  {
    var seen := AllColumns(tables);
    assert LinkedBy(tables, seen, links, x);
    var p := links.parent[x].value;
    assert LinkedBy(tables, seen, links, p);
    if PointsIn(tables, seen, x, p) {
      e := x;
    } else {
      e :| (p, e) in seen && p in tables && e in tables[p] && tables[p][e] == Column(x, Child);
    }
    assert ChildIn(tables, seen, p, e);
  }

  /** Where containment is acyclic the walk from the parentless tables, which reading and writing
      start from, comes to every table. */
  lemma {:induction false} WalkReachesAll(tables: Tables, links: Links, level: map<Name, nat>, height: nat, x: Name)
    requires ValidTables(tables) && Linked(tables, AllColumns(tables), links) && x in tables
    requires level.Keys == tables.Keys && forall t :: t in tables ==> level[t] <= height
    requires forall t, c :: t in tables && c in tables[t] && tables[t][c].relation == Child ==> level[tables[t][c].refTable] < level[t]
    requires forall t, c :: t in tables && c in tables[t] && tables[t][c].relation == Parent ==> level[t] < level[tables[t][c].refTable]
    ensures Reached(tables, links, x, height - level[x])
    decreases height - level[x]
  {
    if links.parent[x].Some? {
      var seen := AllColumns(tables);
      assert LinkedBy(tables, seen, links, x);
      var p := links.parent[x].value;
      if PointsIn(tables, seen, x, p) {
        var c :| (x, c) in seen && c in tables[x] && tables[x][c] == Column(p, Parent);
        assert level[x] < level[tables[x][c].refTable];
      } else {
        var c :| (p, c) in seen && p in tables && c in tables[p] && tables[p][c] == Column(x, Child);
        assert level[tables[p][c].refTable] < level[p];
      }
      WalkReachesAll(tables, links, level, height, p);
      MoreSteps(tables, links, p, height - level[p], height - level[x] - 1);
      var e := ParentListsChild(tables, links, x);
    }
  }

  lemma {:induction false} MoreSteps(tables: Tables, links: Links, x: Name, a: nat, b: nat)
    requires Linked(tables, AllColumns(tables), links) && x in tables && Reached(tables, links, x, a) && a <= b
    ensures Reached(tables, links, x, b)
    decreases a
  {
    if links.parent[x].Some? {
      var p, e :| p in tables && e in links.children[p] && LeadsTo(tables, p, e, x) && Reached(tables, links, p, a - 1);
      MoreSteps(tables, links, p, a - 1, b - 1);
    }
  }
}
