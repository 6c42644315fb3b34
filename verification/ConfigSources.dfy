/** The rows that a configuration was read from, whatever keys the reader put them under, and what keeps
    such a configuration from being written. */
module ConfigSources {
  import opened Options
  import opened Database
  import opened Deletion
  import opened ConfigTree
  import opened ConfigRead
  import opened ConfigReading
  import opened ConfigReader

  // ---------- where an entry comes from ----------

  lemma {:induction false} CollectedFrom(s: Schema, db: Db, order: seq<Uuid>, data: seq<Option<Data>>, k: string) returns (i: nat)
    requires |order| == |data| && k in Collected(s, db, order, data)
    ensures i < |data| && IndexAt(s, db, order[i]) == k && data[i] == Some(Collected(s, db, order, data)[k])
    decreases |data|
  {
    var n := |data| - 1;
    if data[n].Some? && IndexAt(s, db, order[n]) == k {
      i := n;
    } else {
      i := CollectedFrom(s, db, order[..n], data[..n], k);
    }
  }

  /** Which child each key was given to, no child being given two. */
  lemma {:induction false} CodedFrom(keys: seq<string>, data: seq<Option<Data>>) returns (from: map<string, nat>)
    requires |data| <= |keys|
    ensures from.Keys == AsCoded(keys, data).Keys
    ensures forall k :: k in from ==> from[k] < |data| && data[from[k]] == Some(AsCoded(keys, data)[k])
    ensures forall k, l :: k in from && l in from && from[k] == from[l] ==> k == l
    decreases |data|
  {
    from := map[];
    if data != [] {
      var n := |data| - 1;
      from := CodedFrom(keys, data[..n]);
      if data[n].Some? {
        ShownBound(data[..n]);
        from := from[keys[Shown(data[..n])] := n];
      }
    }
  }

  /** `rows` leads from each key to the row that was read under it, and no row was read twice. */
  ghost predicate AreSources(s: Schema, db: Db, t: Name, entries: map<string, Uuid>, children: map<string, Data>, rows: map<string, Uuid>)
    requires ValidSchema(s)
  {
    && rows.Keys == children.Keys
    && (forall k :: k in rows ==> rows[k] in entries.Values && MayRead(s, db, t, rows[k], Some(children[k])))
    && forall k, l :: k in rows && l in rows && rows[k] == rows[l] ==> k == l
  }

  ghost predicate OneKeyEach(entries: map<string, Uuid>) {
    forall k, l :: k in entries && l in entries && entries[k] == entries[l] ==> k == l
  }

  lemma SomeSources(s: Schema, db: Db, t: Name, entries: map<string, Uuid>, children: map<string, Data>) returns (rows: map<string, Uuid>)
    requires ValidSchema(s) && MayReadEntries(s, db, t, entries, children) && OneKeyEach(entries)
    ensures AreSources(s, db, t, entries, children, rows)
  {
    var keys: seq<string>, data: seq<Option<Data>> :| EachKeyRead(s, db, t, entries, keys, data) && children == AsCoded(keys, data);
    var from := CodedFrom(keys, data);
    rows := map k | k in from :: entries[keys[from[k]]];
  }

  /** One choice of them. */
  ghost function Sources(s: Schema, db: Db, t: Name, entries: map<string, Uuid>, children: map<string, Data>): map<string, Uuid>
    requires ValidSchema(s)
  {
    if rows :| AreSources(s, db, t, entries, children, rows) then rows else map[]
  }

  /** The row that the data at a location was read from. */
  ghost function SourceOf(j: Job, p: Path): Option<Uuid>
    requires ValidSchema(j.schema)
    decreases |p|
  {
    if IsKeyed(j.schema, p) then
      var owner, c := SourceOf(j, Parent(p)), Last(p).column;
      if owner.Some? && owner.value in j.base && c in j.base[owner.value].refs && j.base[owner.value].refs[c].Map? then
        var rows := SourcesAt(j, Parent(p), owner.value, c);
        if Last(p).key in rows then Some(rows[Last(p).key]) else None
      else None
    else Exist(j, p)
  }

  ghost function EntriesBelow(root: Root, p: Path, c: Name): map<string, Data> {
    var node := NodeAt(root, p);
    if node.Some? && c in node.value.children then node.value.children[c].entries else map[]
  }

  ghost function SourcesAt(j: Job, p: Path, owner: Uuid, c: Name): map<string, Uuid>
    requires ValidSchema(j.schema) && owner in j.base && c in j.base[owner].refs && j.base[owner].refs[c].Map?
  {
    var t := TableAt(j.schema, p);
    Sources(j.schema, j.base, if t in j.schema.tables && c in j.schema.tables[t].references then j.schema.tables[t].references[c].refTable else "",
            j.base[owner].refs[c].entries, EntriesBelow(j.root, p, c))
  }

  // ---------- every location has its source ----------

  /** A reading of the replica. */
  ghost predicate MayBeRead(j: Job) {
    InOrder(j) && MayReadRoot(j.schema, j.base, j.root) && SYSTEM_TABLE in j.root
  }

  ghost predicate SourceIs(j: Job, p: Path, u: Uuid)
    requires ValidSchema(j.schema)
  {
    var t := TableAt(j.schema, p);
    && p != [] && SourceOf(j, p) == Some(u)
    && u in j.base && j.base[u].table == t && t in j.schema.tables
    && MayRead(j.schema, j.base, t, u, NodeAt(j.root, p))
    && (j.schema.tables[t].indexes != [] ==> Indexed(j.schema, j.base, u) && Last(p).key == RowIndex(j.schema, j.base, u))
    && if |p| == 1 then j.schema.tables[t].parent.None? && (t == SYSTEM_TABLE ==> Last(p).key == "")
       else
         && j.schema.tables[t].parent.Some?
         && SourceOf(j, Parent(p)).Some?
         && IsChildOf(j.schema, j.base, SourceOf(j, Parent(p)).value, Last(p).column, u)
         && (IsKeyed(j.schema, p) <==> j.schema.tables[t].indexes == [])
  }

  lemma ListEntryRow(s: Schema, db: Db, t: Name, rows: set<Uuid>, children: map<string, Data>, k: string) returns (v: Uuid)
    requires ValidSchema(s) && MayReadRows(s, db, t, rows, children) && k in children
    ensures v in rows && IndexAt(s, db, v) == k && MayRead(s, db, t, v, Some(children[k]))
  {
    var order: seq<Uuid>, data: seq<Option<Data>> :| Lines(order, rows) && EachRead(s, db, t, order, data) && children == Collected(s, db, order, data);
    var i := CollectedFrom(s, db, order, data, k);
    v := order[i];
    assert v in order;
  }

  lemma SourceAtTop(j: Job, p: Path) returns (u: Uuid)
    requires MayBeRead(j) && NodeAt(j.root, p).Some? && |p| == 1
    ensures SourceIs(j, p, u)
  {
    OneStep(j, p);
    var t, k := p[0].column, p[0].key;
    assert ValidTable(j.schema, t);
    u := ListEntryRow(j.schema, j.base, t, RowsIn(j.base, t), j.root[t].entries, k);
    assert ValidRow(j.schema, j.base[u]);
    if t != SYSTEM_TABLE {
      IndexLooksUp(j, u);
    }
  }

  lemma ColumnBelow(j: Job, p: Path, w: Uuid)
    requires InOrder(j) && NodeAt(j.root, p).Some? && |p| > 1 && SourceIs(j, Parent(p), w)
    ensures var t, c := TableAt(j.schema, Parent(p)), Last(p).column;
            && t in j.schema.tables && IsChildColumn(j.schema.tables[t], c) && c in j.base[w].refs
            && ValidColumn(j.schema, t, c)
            && TableAt(j.schema, p) == j.schema.tables[t].references[c].refTable
            && (IsKeyed(j.schema, p) <==> j.base[w].refs[c].Map?)
            && Last(p).key in EntriesBelow(j.root, Parent(p), c)
            && NodeAt(j.root, p) == Some(EntriesBelow(j.root, Parent(p), c)[Last(p).key])
            && MayReadColumn(j.schema, j.base, t, c, j.base[w].refs[c], EntriesBelow(j.root, Parent(p), c))
  {
    var t, c := TableAt(j.schema, Parent(p)), Last(p).column;
    var d := NodeAt(j.root, Parent(p)).value;
    assert c in d.children;
    assert ValidRow(j.schema, j.base[w]);
    assert ValidColumn(j.schema, t, c);
  }

  lemma ListedSource(j: Job, p: Path, w: Uuid) returns (u: Uuid)
    requires MayBeRead(j) && NodeAt(j.root, p).Some? && |p| > 1 && SourceIs(j, Parent(p), w) && !IsKeyed(j.schema, p)
    ensures SourceIs(j, p, u)
  {
    ColumnBelow(j, p, w);
    var c, t := Last(p).column, TableAt(j.schema, p);
    u := ListEntryRow(j.schema, j.base, t, j.base[w].refs[c].rows, EntriesBelow(j.root, Parent(p), c), Last(p).key);
    KidIsLower(j.schema, j.base, w, c, u);
    assert ValidRow(j.schema, j.base[u]);
    IndexLooksUp(j, u);
  }

  lemma KeyedSource(j: Job, p: Path, w: Uuid) returns (u: Uuid)
    requires MayBeRead(j) && NodeAt(j.root, p).Some? && |p| > 1 && SourceIs(j, Parent(p), w) && IsKeyed(j.schema, p)
    ensures SourceIs(j, p, u)
  {
    ColumnBelow(j, p, w);
    var c, t := Last(p).column, TableAt(j.schema, p);
    var rows := SourcesBelow(j, Parent(p), w, c);
    u := rows[Last(p).key];
    KidIsLower(j.schema, j.base, w, c, u);
  }

  lemma SourcesBelow(j: Job, p: Path, w: Uuid, c: Name) returns (rows: map<string, Uuid>)
    requires InOrder(j) && w in j.base && j.base[w].table == TableAt(j.schema, p) && j.base[w].table in j.schema.tables
    requires IsChildColumn(j.schema.tables[j.base[w].table], c) && c in j.base[w].refs && j.base[w].refs[c].Map?
    requires MayReadEntries(j.schema, j.base, j.schema.tables[j.base[w].table].references[c].refTable, j.base[w].refs[c].entries,
                            EntriesBelow(j.root, p, c))
    ensures rows == SourcesAt(j, p, w, c)
    ensures AreSources(j.schema, j.base, j.schema.tables[j.base[w].table].references[c].refTable, j.base[w].refs[c].entries,
                       EntriesBelow(j.root, p, c), rows)
  {
    var entries := j.base[w].refs[c].entries;
    forall k, l | k in entries && l in entries && entries[k] == entries[l]
      ensures k == l
    {
      assert HasKey(j.schema, j.base, w, c, k) && HasKey(j.schema, j.base, w, c, l);
    }
    var some := SomeSources(j.schema, j.base, j.schema.tables[j.base[w].table].references[c].refTable, entries, EntriesBelow(j.root, p, c));
    rows := SourcesAt(j, p, w, c);
  }

  /** Every location of a reading was read from a row of its table, in a column of the row that its parent
      was read from. */
  lemma {:induction false} SourceAt(j: Job, p: Path) returns (u: Uuid)
    requires MayBeRead(j) && NodeAt(j.root, p).Some?
    ensures SourceIs(j, p, u)
    decreases |p|
  {
    if |p| == 1 {
      u := SourceAtTop(j, p);
    } else {
      var w := SourceAt(j, Parent(p));
      if IsKeyed(j.schema, p) {
        u := KeyedSource(j, p, w);
      } else {
        u := ListedSource(j, p, w);
      }
    }
  }

  // ---------- no row is read twice ----------

  lemma SameKey(j: Job, p: Path, q: Path, u: Uuid)
    requires MayBeRead(j) && NodeAt(j.root, p).Some? && NodeAt(j.root, q).Some? && |p| > 1 && |q| > 1
    requires SourceIs(j, p, u) && SourceIs(j, q, u) && Parent(p) == Parent(q) && Last(p).column == Last(q).column
    ensures Last(p) == Last(q)
  {
    if IsKeyed(j.schema, p) {
      var w := SourceAt(j, Parent(p));
      ColumnBelow(j, p, w);
      var rows := SourcesBelow(j, Parent(p), w, Last(p).column);
    }
  }

  lemma {:induction false} SourceOnce(j: Job, p: Path, q: Path)
    requires MayBeRead(j) && NodeAt(j.root, p).Some? && NodeAt(j.root, q).Some? && SourceOf(j, p) == SourceOf(j, q)
    ensures p == q
    decreases |p|
  {
    var u := SourceAt(j, p);
    var v := SourceAt(j, q);
    var t := TableAt(j.schema, p);
    assert ValidTable(j.schema, t);
    if |p| == 1 {
      TopPath(j.schema, p);
      TopPath(j.schema, q);
    } else {
      var w1, w2 := SourceOf(j, Parent(p)).value, SourceOf(j, Parent(q)).value;
      assert IsChildOf(j.schema, j.base, w1, Last(p).column, u) && IsChildOf(j.schema, j.base, w2, Last(q).column, u);
      SourceOnce(j, Parent(p), Parent(q));
      SameKey(j, p, q, u);
      SamePath(p, q);
    }
  }

  // ---------- what can be wrong with a reading ----------

  lemma SourceFits(j: Job, p: Path)
    requires MayBeRead(j) && NodeAt(j.root, p).Some?
    ensures Fits(j, p)
  {
    var u := SourceAt(j, p);
    var t := TableAt(j.schema, p);
    assert ValidRow(j.schema, j.base[u]);
    if j.schema.tables[t].indexes != [] {
      IndexLooksUp(j, u);
    }
    ReadConfigFits(j.schema.tables[t], j.base[u].config);
    ReadRefsFit(j.schema, j.base, j.base[u]);
    var d, ts := NodeAt(j.root, p).value, j.schema.tables[t];
    assert d.refs == ReadRefs(j.schema, j.base, ts, j.base[u].refs);
    assert ts.indexes != [] ==> Last(p).key == IndexOf(ts, d.config);
  }

  lemma SourceSameIndex(j: Job, p: Path, q: Path)
    requires MayBeRead(j) && SameIndex(j, p, q)
    ensures p == q
  {
    var u := SourceAt(j, p);
    var v := SourceAt(j, q);
    IndexLooksUp(j, u);
    IndexLooksUp(j, v);
    SourceOnce(j, p, q);
  }

  /** No row of a list is named below another row than the one that contains it. */
  ghost predicate MovesNoRow(j: Job) {
    forall p {:trigger Settled(j, p)} :: Live(j, p) ==> Settled(j, p)
  }

  /** A reading can be written exactly when it moves no row to another owner. */
  lemma ReadingCanBeWritten(j: Job)
    requires MayBeRead(j)
    ensures WellPosed(j) <==> MovesNoRow(j)
  {
    forall p | NodeAt(j.root, p).Some?
      ensures Fits(j, p)
    {
      SourceFits(j, p);
    }
    forall p, q | SameIndex(j, p, q)
      ensures p == q
    {
      SourceSameIndex(j, p, q);
    }
    forall k | k in j.root[SYSTEM_TABLE].entries
      ensures k == ""
    {
      SystemKey(j.schema, j.base, j.root, k);
    }
    assert ValidSystem(j);
  }

  /** Lists are in System or in rows of indexed tables. */
  ghost predicate ListsInIndexed(s: Schema) {
    forall t, c {:trigger IsChildColumn(s.tables[t], c)} ::
      t in s.tables && IsChildColumn(s.tables[t], c) && s.tables[t].references[c].shape != Keyed ==> t == SYSTEM_TABLE || s.tables[t].indexes != []
  }

  lemma ListStays(j: Job, p: Path)
    requires MayBeRead(j) && ListsInIndexed(j.schema) && NodeAt(j.root, p).Some?
    ensures Settled(j, p)
  {
    if |p| > 1 && !IsKeyed(j.schema, p) {
      var u := SourceAt(j, p);
      var w := SourceAt(j, Parent(p));
      ColumnBelow(j, p, w);
      assert ValidTable(j.schema, TableAt(j.schema, Parent(p)));
      assert !IsKeyed(j.schema, Parent(p));
    }
  }

  /** On a tidy replica, and in a schema where lists are in System or in rows of indexed tables, no reading
      moves a row. */
  lemma NoReadingMovesRows(j: Job)
    requires MayBeRead(j) && (Tidy(j.schema, j.base, true) || ListsInIndexed(j.schema))
    ensures MovesNoRow(j) && WellPosed(j)
  {
    if Tidy(j.schema, j.base, true) {
      RootIsRead(j.schema, j.base, j.root);
      ReadingIsWellPosed(j);
    } else {
      forall p | Live(j, p)
        ensures Settled(j, p)
      {
        ListStays(j, p);
      }
    }
    ReadingCanBeWritten(j);
  }
}
