/** The index map that a write looks rows up in is the one that the IDL keeps beside every table. */
module ConfigIndex {
  import opened Database
  import opened ConfigTree
  import M = IndexMap

  /** The rows of table `t` as the IDL has them, with UUIDs as texts and without links in index columns. */
  ghost predicate MirrorsRows(j: Job, text: map<Uuid, string>, t: Name, table: M.Table)
    requires t in j.schema.tables
  {
    && (forall u {:trigger RowIn(j, text, t, table, u)} :: u in j.base && j.base[u].table == t ==> RowIn(j, text, t, table, u))
    && (forall id {:trigger id in table.rows} :: id in table.rows ==> exists u {:trigger Named(j, text, t, u, id)} :: Named(j, text, t, u, id))
  }

  ghost predicate RowIn(j: Job, text: map<Uuid, string>, t: Name, table: M.Table, u: Uuid)
    requires t in j.schema.tables && u in j.base
  {
    u in text && text[u] in table.rows && MirrorsRow(j.schema.tables[t], j.base[u], table.rows[text[u]])
  }

  ghost predicate Named(j: Job, text: map<Uuid, string>, t: Name, u: Uuid, id: string) {
    u in j.base && j.base[u].table == t && u in text && text[u] == id
  }

  ghost predicate MirrorsRow(ts: TableSchema, row: Row, record: M.Record) {
    forall i {:trigger ts.indexes[i]} :: 0 <= i < |ts.indexes| ==>
      && ts.indexes[i] in record
      && ts.indexes[i] in row.config && IsAtom(row.config[ts.indexes[i]])
      && record[ts.indexes[i]] == M.Plain(Str(row.config[ts.indexes[i]]))
  }

  /** The part of the index map that is about table `t`. */
  ghost predicate MirrorsMap(j: Job, text: map<Uuid, string>, t: Name, table: M.Table) {
    && (forall key {:trigger key in table.indexMap} {:trigger (t, key) in j.indexMap} :: key in table.indexMap <==> (t, key) in j.indexMap)
    && (forall key {:trigger table.indexMap[key]} {:trigger j.indexMap[(t, key)]} :: key in table.indexMap && (t, key) in j.indexMap ==>
          j.indexMap[(t, key)] in text && table.indexMap[key] == text[j.indexMap[(t, key)]])
  }

  ghost predicate OneText(text: map<Uuid, string>) {
    forall u, v {:trigger text[u], text[v]} :: u in text && v in text && text[u] == text[v] ==> u == v
  }

  ghost predicate Mirrors(j: Job, text: map<Uuid, string>, t: Name, table: M.Table) {
    && t in j.schema.tables && j.schema.tables[t].indexes != []
    && OneText(text)
    && MirrorsRows(j, text, t, table)
    && MirrorsMap(j, text, t, table)
  }

  lemma MirrorIsValid(j: Job, text: map<Uuid, string>, t: Name, table: M.Table)
    requires Mirrors(j, text, t, table)
    ensures M.ValidTable(j.schema.tables[t].indexes, table)
  {
    forall id | id in table.rows
      ensures M.ValidRecord(j.schema.tables[t].indexes, table.rows[id])
    {
      var u :| Named(j, text, t, u, id);
      assert RowIn(j, text, t, table, u);
    }
  }

  lemma SameKey(j: Job, text: map<Uuid, string>, t: Name, table: M.Table, u: Uuid)
    requires Mirrors(j, text, t, table) && M.ValidTable(j.schema.tables[t].indexes, table)
    requires u in j.base && j.base[u].table == t
    ensures u in text && text[u] in table.rows && Indexed(j.schema, j.base, u)
    ensures M.CreateKey(j.schema.tables[t].indexes, table.rows[text[u]]) == RowKey(j.schema, j.base, u)
  {
    assert RowIn(j, text, t, table, u);
  }

  /** An entry of the map, seen from both sides. */
  lemma SameEntry(j: Job, text: map<Uuid, string>, t: Name, table: M.Table, key: seq<string>, u: Uuid)
    requires Mirrors(j, text, t, table) && M.ValidTable(j.schema.tables[t].indexes, table) && u in text
    ensures key in table.indexMap && table.indexMap[key] == text[u] <==> (t, key) in j.indexMap && j.indexMap[(t, key)] == u
    ensures M.IndexesOf(j.schema.tables[t].indexes, table, text[u], key) <==>
            u in j.base && j.base[u].table == t && Indexed(j.schema, j.base, u) && RowKey(j.schema, j.base, u) == key
  {
    if (t, key) in j.indexMap {
      assert table.indexMap[key] == text[j.indexMap[(t, key)]];
    }
    if text[u] in table.rows {
      var v :| Named(j, text, t, v, text[u]);
      assert text[v] == text[u] && v == u;
      SameKey(j, text, t, table, u);
    } else if u in j.base && j.base[u].table == t {
      SameKey(j, text, t, table, u);
    }
  }

  /** One table is exact for the IDL exactly when the index map is exact about its rows. */
  lemma TableExactly(j: Job, text: map<Uuid, string>, t: Name, table: M.Table)
    requires Mirrors(j, text, t, table)
    ensures M.ValidTable(j.schema.tables[t].indexes, table)
    ensures M.Exact(j.schema.tables[t].indexes, table) <==> ExactAbout(j, text, t)
  {
    MirrorIsValid(j, text, t, table);
    var indexes := j.schema.tables[t].indexes;
    forall key, u | u in text
      ensures key in table.indexMap && table.indexMap[key] == text[u] <==> (t, key) in j.indexMap && j.indexMap[(t, key)] == u
      ensures M.IndexesOf(indexes, table, text[u], key) <==> Lists(j, t, key, u)
    {
      SameEntry(j, text, t, table, key, u);
    }
    if ExactAbout(j, text, t) {
      forall key, id
        ensures key in table.indexMap && table.indexMap[key] == id <==> M.IndexesOf(indexes, table, id, key)
      {
        if M.IndexesOf(indexes, table, id, key) {
          var u :| Named(j, text, t, u, id);
          assert Lists(j, t, key, u);
        }
        if key in table.indexMap && table.indexMap[key] == id {
          var u := j.indexMap[(t, key)];
          assert table.indexMap[key] == text[u];
          assert Lists(j, t, key, u);
        }
      }
    }
    if M.Exact(indexes, table) {
      forall key, u | u in text
        ensures Lists(j, t, key, u) <==> (t, key) in j.indexMap && j.indexMap[(t, key)] == u
      {
        assert M.IndexesOf(indexes, table, text[u], key) <==> Lists(j, t, key, u);
      }
    }
  }

  ghost predicate Lists(j: Job, t: Name, key: seq<string>, u: Uuid) {
    u in j.base && j.base[u].table == t && Indexed(j.schema, j.base, u) && RowKey(j.schema, j.base, u) == key
  }

  ghost predicate ExactAbout(j: Job, text: map<Uuid, string>, t: Name) {
    forall key, u {:trigger Lists(j, t, key, u)} :: u in text ==>
      (Lists(j, t, key, u) <==> (t, key) in j.indexMap && j.indexMap[(t, key)] == u)
  }

  ghost predicate CleanKeys(j: Job) {
    forall u {:trigger Indexed(j.schema, j.base, u)} :: Indexed(j.schema, j.base, u) ==> CleanKey(RowKey(j.schema, j.base, u))
  }

  /** What a write asks of the index map is that the map of every indexed table is exact, and that index
      values survive being printed. */
  lemma IndexExactExactly(j: Job, text: map<Uuid, string>, tables: map<Name, M.Table>)
    requires text.Keys == j.base.Keys
    requires forall t :: t in tables <==> t in j.schema.tables && j.schema.tables[t].indexes != []
    requires forall t {:trigger tables[t]} :: t in tables ==> Mirrors(j, text, t, tables[t])
    requires forall e {:trigger e in j.indexMap} :: e in j.indexMap ==> e.0 in tables
    ensures forall t {:trigger tables[t]} :: t in tables ==> M.ValidTable(j.schema.tables[t].indexes, tables[t])
    ensures IndexExact(j) <==>
            CleanKeys(j) && forall t {:trigger tables[t]} :: t in tables ==> M.Exact(j.schema.tables[t].indexes, tables[t])
  {
    forall t | t in tables
      ensures M.ValidTable(j.schema.tables[t].indexes, tables[t])
      ensures M.Exact(j.schema.tables[t].indexes, tables[t]) <==> ExactAbout(j, text, t)
    {
      TableExactly(j, text, t, tables[t]);
    }
    if IndexExact(j) {
      AboutAll(j, text, tables);
    } else if CleanKeys(j) && (forall t {:trigger tables[t]} :: t in tables ==> ExactAbout(j, text, t)) {
      ExactTogether(j, text, tables);
    }
  }

  lemma AboutAll(j: Job, text: map<Uuid, string>, tables: map<Name, M.Table>)
    requires IndexExact(j) && text.Keys == j.base.Keys
    ensures CleanKeys(j) && forall t {:trigger tables[t]} :: t in tables ==> ExactAbout(j, text, t)
  {
    forall u | Indexed(j.schema, j.base, u)
      ensures CleanKey(RowKey(j.schema, j.base, u))
    {
      assert RowListed(j, u);
    }
    forall t, key, u | t in tables && u in text
      ensures Lists(j, t, key, u) <==> (t, key) in j.indexMap && j.indexMap[(t, key)] == u
    {
      if (t, key) in j.indexMap {
        assert EntryExact(j, (t, key));
      }
      if Lists(j, t, key, u) {
        assert RowListed(j, u);
      }
    }
  }

  lemma ExactTogether(j: Job, text: map<Uuid, string>, tables: map<Name, M.Table>)
    requires CleanKeys(j) && text.Keys == j.base.Keys
    requires forall t :: t in tables <==> t in j.schema.tables && j.schema.tables[t].indexes != []
    requires forall t {:trigger tables[t]} :: t in tables ==> Mirrors(j, text, t, tables[t]) && ExactAbout(j, text, t)
    requires forall e {:trigger e in j.indexMap} :: e in j.indexMap ==> e.0 in tables
    ensures IndexExact(j)
  {
    forall e | e in j.indexMap
      ensures EntryExact(j, e)
    {
      var t, key := e.0, e.1;
      var table := tables[t];
      assert (t, key) == e && key in table.indexMap;
      assert table.indexMap[key] == text[j.indexMap[(t, key)]];
      assert ExactAbout(j, text, t);
      assert Lists(j, t, key, j.indexMap[e]);
    }
    forall u | Indexed(j.schema, j.base, u)
      ensures RowListed(j, u)
    {
      var t := j.base[u].table;
      var table := tables[t];
      assert ExactAbout(j, text, t);
      assert Lists(j, t, RowKey(j.schema, j.base, u), u);
    }
  }
}
