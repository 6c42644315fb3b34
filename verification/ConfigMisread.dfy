/** Writing back what was read, when the reader may have put rows under the keys of others. */
module ConfigMisread {
  import opened Options
  import opened Database
  import opened Containment
  import opened Deletion
  import opened ConfigTree
  import opened ConfigTarget
  import opened ConfigRefs
  import opened ConfigRead
  import opened ConfigReading
  import opened ConfigReader
  import opened ConfigOrders
  import opened ConfigIdle
  import opened ConfigUnchanged

  // ---------- whether a row shows does not depend on the order ----------

  lemma {:induction false} CollectedShows(s: Schema, db: Db, order: seq<Uuid>, data: seq<Option<Data>>)
    requires |order| == |data|
    ensures Collected(s, db, order, data) == map[] <==> forall i :: 0 <= i < |data| ==> data[i].None?
  {
    if data != [] {
      var n := |data| - 1;
      CollectedShows(s, db, order[..n], data[..n]);
      assert data == data[..n] + [data[n]];
      if data[n].Some? {
        assert IndexAt(s, db, order[n]) in Collected(s, db, order, data);
      }
    }
  }

  lemma {:induction false} CodedShows(keys: seq<string>, data: seq<Option<Data>>)
    requires |data| <= |keys|
    ensures AsCoded(keys, data) == map[] <==> forall i :: 0 <= i < |data| ==> data[i].None?
  {
    if data != [] {
      var n := |data| - 1;
      CodedShows(keys, data[..n]);
      assert data == data[..n] + [data[n]];
      if data[n].Some? {
        ShownBound(data[..n]);
        assert keys[Shown(data[..n])] in AsCoded(keys, data);
      }
    }
  }

  lemma NothingListed(s: Schema, db: Db, t: Name, rows: set<Uuid>)
    requires ValidSchema(s)
    ensures ByIndex(Listing(s, db, t, rows)) == map[] <==> forall v :: v in rows ==> ReadRow(s, db, t, v).None?
  {
    var data := Listing(s, db, t, rows);
    if v :| v in rows && ReadRow(s, db, t, v).Some? {
      assert v in data && data[v].0 in IndexesOf(data);
      assert data[v].0 in ByIndex(data);
    }
  }

  lemma {:induction false} RowsShow(s: Schema, db: Db, t: Name, rows: set<Uuid>, children: map<string, Data>)
    requires ValidSchema(s) && MayReadRows(s, db, t, rows, children)
    ensures children == map[] <==> ByIndex(Listing(s, db, t, rows)) == map[]
    decreases Level(s, t), 5
  {
    var order: seq<Uuid>, data: seq<Option<Data>> :| Lines(order, rows) && EachRead(s, db, t, order, data) && children == Collected(s, db, order, data);
    CollectedShows(s, db, order, data);
    NothingListed(s, db, t, rows);
    forall i | 0 <= i < |order|
      ensures order[i] in rows && (data[i].Some? <==> ReadRow(s, db, t, order[i]).Some?)
    {
      assert order[i] in order;
      RowShows(s, db, t, order[i], data[i]);
    }
    forall v | v in rows
      ensures exists i :: 0 <= i < |order| && order[i] == v
    {
      assert v in order;
    }
  }

  lemma {:induction false} EntriesShow(s: Schema, db: Db, t: Name, entries: map<string, Uuid>, children: map<string, Data>)
    requires ValidSchema(s) && MayReadEntries(s, db, t, entries, children)
    ensures children == map[] <==> Shows(EntryData(s, db, t, entries)) == map[]
    decreases Level(s, t), 5
  {
    var keys: seq<string>, data: seq<Option<Data>> :| EachKeyRead(s, db, t, entries, keys, data) && children == AsCoded(keys, data);
    CodedShows(keys, data);
    var reading := EntryData(s, db, t, entries);
    forall i | 0 <= i < |keys|
      ensures keys[i] in reading && (data[i].Some? <==> keys[i] in Shows(reading))
    {
      RowShows(s, db, t, entries[keys[i]], data[i]);
    }
    forall k | k in Shows(reading)
      ensures exists i :: 0 <= i < |keys| && keys[i] == k
    {
      assert k in keys;
    }
  }

  lemma {:induction false} ColumnShows(s: Schema, db: Db, t: Name, c: Name, column: RefValue, children: map<string, Data>)
    requires ValidSchema(s) && t in s.tables && IsChildColumn(s.tables[t], c)
    requires MayReadColumn(s, db, t, c, column, children)
    ensures children == map[] <==> ReadChildren(s, db, t, c, column) == map[]
    decreases Level(s, t), 0
  {
    assert ValidColumn(s, t, c);
    var ct := s.tables[t].references[c].refTable;
    match column
    case Rows(rows) =>
      RowsShow(s, db, ct, rows, children);
    case Map(entries) =>
      EntriesShow(s, db, ct, entries, children);
      ShownEntries(s, db, t, c, entries);
  }

  lemma {:induction false} RowShows(s: Schema, db: Db, t: Name, u: Uuid, data: Option<Data>)
    requires ValidSchema(s) && MayRead(s, db, t, u, data)
    ensures data.Some? <==> ReadRow(s, db, t, u).Some?
    decreases Level(s, t), 3
  {
    if Entered(s, db, t, u) {
      var d := if data.Some? then data.value else EMPTY_DATA;
      var columns := ReadColumns(s, db, t, db[u].refs);
      forall c
        ensures c in d.children <==> c in columns
      {
        if c in db[u].refs && IsChildColumn(s.tables[t], c) {
          ColumnShows(s, db, t, c, db[u].refs[c], if c in d.children then d.children[c].entries else map[]);
        }
      }
      assert d.children == map[] <==> columns == map[];
    }
  }

  // ---------- rows that the writer can tell apart ----------

  /** Being given the configuration columns of `other` would change those of `was`. */
  ghost predicate WouldChange(ts: TableSchema, was: map<Name, Value>, other: map<Name, Value>) {
    TargetConfig(ts, was, ReadConfig(ts, other)) != was
  }

  ghost predicate ToldApart(s: Schema, db: Db, u: Uuid, c: Name)
    requires ValidSchema(s)
  {
    u in db && Entered(s, db, db[u].table, u) && IsChildColumn(s.tables[db[u].table], c) && c in db[u].refs && db[u].refs[c].Map? ==>
      var ct, entries := s.tables[db[u].table].references[c].refTable, db[u].refs[c].entries;
      forall k, l :: k in entries && l in entries && ReadRow(s, db, ct, entries[k]).None? && ReadRow(s, db, ct, entries[l]).Some? ==>
        entries[k] in db && entries[l] in db && ct in s.tables && WouldChange(s.tables[ct], db[entries[k]].config, db[entries[l]].config)
  }

  /** In every key/value column that reading goes into, a row that does not show differs from each that
      does in a mutable configuration column. */
  ghost predicate TellsApart(s: Schema, db: Db)
    requires ValidSchema(s)
  {
    forall u, c {:trigger ToldApart(s, db, u, c)} :: ToldApart(s, db, u, c)
  }

  /** No committed row is given other configuration columns than it has. */
  ghost predicate Unmoved(j: Job) {
    forall p {:trigger Changed(j, p)} :: NodeAt(j.root, p).Some? && Exist(j, p).Some? ==> !Changed(j, p)
  }

  // ---------- orders that put rows under the keys of others ----------

  lemma {:induction false} ShownGrows(data: seq<Option<Data>>, i: nat)
    requires i < |data| && data[i].Some?
    ensures Shown(data[..i]) < Shown(data)
    decreases |data|
  {
    var n := |data| - 1;
    if i < n {
      assert data[..n][..i] == data[..i];
      ShownGrows(data[..n], i);
    }
  }

  /** Where the reader puts the i-th child. */
  lemma {:induction false} CodedAt(keys: seq<string>, data: seq<Option<Data>>, i: nat)
    requires |data| <= |keys| && DistinctKeys(keys) && i < |data| && data[i].Some?
    ensures Shown(data[..i]) <= i
    ensures keys[Shown(data[..i])] in AsCoded(keys, data) && AsCoded(keys, data)[keys[Shown(data[..i])]] == data[i].value
    decreases |data|
  {
    var n := |data| - 1;
    ShownBound(data[..i]);
    if i < n {
      assert data[..n][..i] == data[..i];
      CodedAt(keys, data[..n], i);
      ShownGrows(data[..n], i);
      ShownBound(data[..n]);
    }
  }

  /** Unless the children that show come first, one of them takes the key of one that does not. */
  lemma {:induction false} TakesKey(keys: seq<string>, data: seq<Option<Data>>) returns (i: nat, k: nat)
    requires |data| <= |keys| && DistinctKeys(keys) && !ShownFirst(data)
    ensures i < k < |data| && data[i].None? && data[k].Some?
    ensures keys[i] in AsCoded(keys, data) && AsCoded(keys, data)[keys[i]] == data[k].value
  {
    i, k := FirstGap(data);
    AllShown(data[..i]);
    NoneShown(data[..k], i);
    assert data[..k][..i] == data[..i];
    CodedAt(keys, data, k);
  }

  lemma {:induction false} NoneShown(data: seq<Option<Data>>, i: nat)
    requires i <= |data| && forall k :: i <= k < |data| ==> data[k].None?
    ensures Shown(data) == Shown(data[..i])
    decreases |data|
  {
    if i < |data| {
      var n := |data| - 1;
      assert data[..n][..i] == data[..i];
      NoneShown(data[..n], i);
    } else {
      assert data[..i] == data;
    }
  }

  lemma {:induction false} FirstGap(data: seq<Option<Data>>) returns (i: nat, k: nat)
    requires !ShownFirst(data)
    ensures i < k < |data| && data[k].Some?
    ensures forall l :: 0 <= l < i ==> data[l].Some?
    ensures forall l :: i <= l < k ==> data[l].None?
    decreases |data|
  {
    var n := |data| - 1;
    if ShownFirst(data[..n]) {
      i := FirstNone(data[..n]);
      k := n;
    } else {
      i, k := FirstGap(data[..n]);
    }
  }

  lemma {:induction false} FirstNone(data: seq<Option<Data>>) returns (i: nat)
    ensures i <= |data| && (forall l :: 0 <= l < i ==> data[l].Some?) && (i < |data| ==> data[i].None?)
    decreases |data|
  {
    i := 0;
    while i < |data| && data[i].Some?
      invariant i <= |data| && forall l :: 0 <= l < i ==> data[l].Some?
    {
      i := i + 1;
    }
  }

  // ---------- a reading that moves no row is the one that is meant ----------

  lemma KeyedChildAt(j: Job, p: Path, u: Uuid, c: Name, k: string)
    requires InOrder(j) && p != [] && Exist(j, p) == Some(u) && u in j.base && j.base[u].table == TableAt(j.schema, p)
    requires j.base[u].table in j.schema.tables && IsChildColumn(j.schema.tables[j.base[u].table], c)
    requires c in j.base[u].refs && j.base[u].refs[c].Map? && k in j.base[u].refs[c].entries
    ensures TableAt(j.schema, p + [Step(c, k)]) == j.schema.tables[j.base[u].table].references[c].refTable
    ensures Exist(j, p + [Step(c, k)]) == Some(j.base[u].refs[c].entries[k])
  {
    ChildPath(p, Step(c, k));
    assert ValidRow(j.schema, j.base[u]);
  }

  lemma ListedChildAt(j: Job, p: Path, u: Uuid, c: Name, v: Uuid)
    requires InOrder(j) && p != [] && Exist(j, p) == Some(u) && u in j.base && j.base[u].table == TableAt(j.schema, p)
    requires j.base[u].table in j.schema.tables && IsChildColumn(j.schema.tables[j.base[u].table], c)
    requires c in j.base[u].refs && j.base[u].refs[c].Rows? && v in j.base[u].refs[c].rows
    ensures TableAt(j.schema, p + [Step(c, IndexAt(j.schema, j.base, v))]) == j.schema.tables[j.base[u].table].references[c].refTable
    ensures Exist(j, p + [Step(c, IndexAt(j.schema, j.base, v))]) == Some(v)
  {
    ChildPath(p, Step(c, IndexAt(j.schema, j.base, v)));
    assert ValidRow(j.schema, j.base[u]);
    assert ValidColumn(j.schema, j.base[u].table, c);
    KidIsLower(j.schema, j.base, u, c, v);
    assert ValidRow(j.schema, j.base[v]);
    IndexLooksUp(j, v);
  }

  /** The rows of a list are at the locations below `p` that their indexes name. */
  ghost predicate ListedAt(j: Job, p: Path, c: Name, t: Name, rows: set<Uuid>) {
    forall v :: v in rows ==>
      TableAt(j.schema, p + [Step(c, IndexAt(j.schema, j.base, v))]) == t && Exist(j, p + [Step(c, IndexAt(j.schema, j.base, v))]) == Some(v)
  }

  ghost predicate EntriesAre(j: Job, p: Path, c: Name, children: map<string, Data>) {
    forall k :: k in children ==> NodeAt(j.root, p + [Step(c, k)]) == Some(children[k])
  }

  lemma {:induction false} RowsAsMeant(j: Job, p: Path, c: Name, t: Name, rows: set<Uuid>, children: map<string, Data>)
    requires InOrder(j) && Unmoved(j) && TellsApart(j.schema, j.base)
    requires MayReadRows(j.schema, j.base, t, rows, children) && DistinctIndexes(j.schema, j.base, t, rows)
    requires ListedAt(j, p, c, t, rows) && EntriesAre(j, p, c, children)
    ensures children == ByIndex(Listing(j.schema, j.base, t, rows))
    decreases Level(j.schema, t), 5
  {
    var s, db := j.schema, j.base;
    var order: seq<Uuid>, data: seq<Option<Data>> :| Lines(order, rows) && EachRead(s, db, t, order, data) && children == Collected(s, db, order, data);
    forall i | 0 <= i < |order|
      ensures order[i] in rows && (data[i].Some? <==> ReadRow(s, db, t, order[i]).Some?)
    {
      assert order[i] in order;
      RowShows(s, db, t, order[i], data[i]);
    }
    forall i | 0 <= i < |order|
      ensures data[i] == ReadRow(s, db, t, order[i])
    {
      if data[i].Some? {
        ShownAtIndex(s, db, t, rows, order, data, i);
        RowAsMeant(j, p + [Step(c, IndexAt(s, db, order[i]))], t, order[i], data[i].value);
      }
    }
    ListIsRead(s, db, t, rows, rows, order, data);
  }

  lemma ShownAtIndex(s: Schema, db: Db, t: Name, rows: set<Uuid>, order: seq<Uuid>, data: seq<Option<Data>>, i: nat)
    requires ValidSchema(s) && Lines(order, rows) && |order| == |data| && DistinctIndexes(s, db, t, rows)
    requires forall i :: 0 <= i < |order| ==> order[i] in rows && (data[i].Some? <==> ReadRow(s, db, t, order[i]).Some?)
    requires i < |order| && data[i].Some?
    ensures IndexAt(s, db, order[i]) in Collected(s, db, order, data)
    ensures Collected(s, db, order, data)[IndexAt(s, db, order[i])] == data[i].value
  {
    forall k | 0 <= k < |order| && k != i && data[k].Some?
      ensures IndexAt(s, db, order[k]) != IndexAt(s, db, order[i])
    {
      OthersDiffer(s, db, t, rows, order, i, k);
    }
    CollectedAt(s, db, order, data, i);
  }

  /** The row at `p` holds these entries in a key/value column that reading goes into. */
  ghost predicate KeyedAt(j: Job, p: Path, u: Uuid, c: Name, t: Name, entries: map<string, Uuid>) {
    && p != [] && Exist(j, p) == Some(u) && Entered(j.schema, j.base, TableAt(j.schema, p), u)
    && IsChildColumn(j.schema.tables[j.base[u].table], c)
    && t == j.schema.tables[j.base[u].table].references[c].refTable
    && c in j.base[u].refs && j.base[u].refs[c] == Map(entries)
  }

  /** Where the writer can tell rows apart, it changes one that does not show when it is given the data
      of one that does. */
  lemma TakenKeyChanges(j: Job, p: Path, u: Uuid, c: Name, t: Name, entries: map<string, Uuid>, k: string, l: string, d: Data)
    requires InOrder(j) && TellsApart(j.schema, j.base) && KeyedAt(j, p, u, c, t, entries)
    requires k in entries && l in entries && NodeAt(j.root, p + [Step(c, k)]) == Some(d)
    requires ReadRow(j.schema, j.base, t, entries[k]).None? && ReadRow(j.schema, j.base, t, entries[l]).Some?
    requires MayRead(j.schema, j.base, t, entries[l], Some(d))
    ensures !Unmoved(j)
  {
    assert ToldApart(j.schema, j.base, u, c);
    KeyedChildAt(j, p, u, c, k);
    assert d.config == ReadConfig(j.schema.tables[t], j.base[entries[l]].config);
    assert DataAt(j, p + [Step(c, k)]) == d;
    assert Changed(j, p + [Step(c, k)]);
  }

  lemma EntryShows(s: Schema, db: Db, t: Name, entries: map<string, Uuid>, keys: seq<string>, data: seq<Option<Data>>, i: nat)
    requires ValidSchema(s) && EachKeyRead(s, db, t, entries, keys, data) && i < |keys|
    ensures keys[i] in entries && MayRead(s, db, t, entries[keys[i]], data[i])
    ensures data[i].Some? <==> ReadRow(s, db, t, entries[keys[i]]).Some?
  {
    RowShows(s, db, t, entries[keys[i]], data[i]);
  }

  lemma KeysAreOwn(j: Job, p: Path, u: Uuid, c: Name, t: Name, entries: map<string, Uuid>, keys: seq<string>, data: seq<Option<Data>>)
    requires InOrder(j) && Unmoved(j) && TellsApart(j.schema, j.base) && KeyedAt(j, p, u, c, t, entries)
    requires EachKeyRead(j.schema, j.base, t, entries, keys, data) && EntriesAre(j, p, c, AsCoded(keys, data))
    ensures ShownFirst(data)
  {
    if !ShownFirst(data) {
      var i, k := TakesKey(keys, data);
      EntryShows(j.schema, j.base, t, entries, keys, data, i);
      EntryShows(j.schema, j.base, t, entries, keys, data, k);
      TakenKeyChanges(j, p, u, c, t, entries, keys[i], keys[k], data[k].value);
    }
  }

  lemma {:induction false} EntriesAsMeant(j: Job, p: Path, u: Uuid, c: Name, t: Name, entries: map<string, Uuid>, children: map<string, Data>)
    requires InOrder(j) && Unmoved(j) && TellsApart(j.schema, j.base) && KeyedAt(j, p, u, c, t, entries)
    requires MayReadEntries(j.schema, j.base, t, entries, children) && EntriesAre(j, p, c, children)
    ensures children == Shows(EntryData(j.schema, j.base, t, entries))
    decreases Level(j.schema, t), 5
  {
    var s, db := j.schema, j.base;
    var keys: seq<string>, data: seq<Option<Data>> :| EachKeyRead(s, db, t, entries, keys, data) && children == AsCoded(keys, data);
    KeysAreOwn(j, p, u, c, t, entries, keys, data);
    assert keys[..|data|] == keys;
    PrefixIsCoded(keys, data);
    forall i | 0 <= i < |keys|
      ensures data[i] == ReadRow(s, db, t, entries[keys[i]])
    {
      EntryShows(s, db, t, entries, keys, data, i);
      IntendedKeys(keys, data, i);
      if data[i].Some? {
        KeyedChildAt(j, p, u, c, keys[i]);
        RowAsMeant(j, p + [Step(c, keys[i])], t, entries[keys[i]], data[i].value);
      }
    }
    IntendedIs(EntryData(s, db, t, entries), keys, data);
  }

  lemma {:induction false} ColumnAsMeant(j: Job, p: Path, u: Uuid, c: Name, children: map<string, Data>)
    requires InOrder(j) && Unmoved(j) && TellsApart(j.schema, j.base)
    requires p != [] && Exist(j, p) == Some(u) && Entered(j.schema, j.base, TableAt(j.schema, p), u)
    requires IsChildColumn(j.schema.tables[j.base[u].table], c) && c in j.base[u].refs
    requires MayReadColumn(j.schema, j.base, j.base[u].table, c, j.base[u].refs[c], children) && EntriesAre(j, p, c, children)
    ensures children == ReadChildren(j.schema, j.base, j.base[u].table, c, j.base[u].refs[c])
    decreases Level(j.schema, j.base[u].table), 0
  {
    var s, db, t := j.schema, j.base, j.base[u].table;
    assert ValidColumn(s, t, c);
    var ct := s.tables[t].references[c].refTable;
    assert ValidRow(s, db[u]);
    match db[u].refs[c]
    case Rows(rows) =>
      forall v | v in rows
        ensures v in db && db[v].table == ct
      {
        KidIsLower(s, db, u, c, v);
      }
      OrderIsDistinct(j, ct, rows);
      forall v | v in rows
        ensures TableAt(s, p + [Step(c, IndexAt(s, db, v))]) == ct && Exist(j, p + [Step(c, IndexAt(s, db, v))]) == Some(v)
      {
        ListedChildAt(j, p, u, c, v);
      }
      RowsAsMeant(j, p, c, ct, rows, children);
    case Map(entries) =>
      EntriesAsMeant(j, p, u, c, ct, entries, children);
      ShownEntries(s, db, t, c, entries);
  }

  lemma {:induction false} RowAsMeant(j: Job, p: Path, t: Name, u: Uuid, d: Data)
    requires InOrder(j) && Unmoved(j) && TellsApart(j.schema, j.base)
    requires p != [] && NodeAt(j.root, p) == Some(d) && Exist(j, p) == Some(u) && TableAt(j.schema, p) == t
    requires MayRead(j.schema, j.base, t, u, Some(d))
    ensures ReadRow(j.schema, j.base, t, u) == Some(d)
    decreases Level(j.schema, t), 3
  {
    var s, db := j.schema, j.base;
    var columns := ReadColumns(s, db, t, db[u].refs);
    forall c
      ensures c in d.children <==> c in columns
      ensures c in d.children && c in columns ==> d.children[c].entries == columns[c].entries
    {
      if c in db[u].refs && IsChildColumn(s.tables[t], c) {
        var children := if c in d.children then d.children[c].entries else map[];
        forall k | k in children
          ensures NodeAt(j.root, p + [Step(c, k)]) == Some(children[k])
        {
          ChildPath(p, Step(c, k));
        }
        ColumnAsMeant(j, p, u, c, children);
      }
    }
    SameChildren(d.children, columns);
  }

  /** A reading that gives no row the columns of another is what the replica stands for. */
  lemma RootAsMeant(j: Job)
    requires InOrder(j) && Unmoved(j) && TellsApart(j.schema, j.base) && MayReadRoot(j.schema, j.base, j.root)
    ensures j.root == ReadRoot(j.schema, j.base)
  {
    var s, db, back := j.schema, j.base, ReadRoot(j.schema, j.base);
    forall t
      ensures t in j.root <==> t in back
      ensures t in j.root && t in back ==> j.root[t].entries == back[t].entries
    {
      if IsTopLevel(s, t) {
        TableIsAsMeant(j, t);
      }
    }
    SameChildren(j.root, back);
  }

  lemma TableIsAsMeant(j: Job, t: Name)
    requires InOrder(j) && Unmoved(j) && TellsApart(j.schema, j.base) && MayReadRoot(j.schema, j.base, j.root)
    requires IsTopLevel(j.schema, t)
    ensures (if t in j.root then j.root[t].entries else map[]) == ReadTable(j.schema, j.base, t)
  {
    var s, db := j.schema, j.base;
    var rows, entries := RowsIn(db, t), if t in j.root then j.root[t].entries else map[];
    assert ValidTable(s, t);
    OrderIsDistinct(j, t, rows);
    forall v | v in rows
      ensures TableAt(s, [] + [Step(t, IndexAt(s, db, v))]) == t && Exist(j, [] + [Step(t, IndexAt(s, db, v))]) == Some(v)
    {
      TopRowAt(j, t, v);
    }
    RowsAsMeant(j, [], t, t, rows, entries);
  }

  lemma TopRowAt(j: Job, t: Name, v: Uuid)
    requires InOrder(j) && IsTopLevel(j.schema, t) && v in j.base && j.base[v].table == t
    ensures TableAt(j.schema, [] + [Step(t, IndexAt(j.schema, j.base, v))]) == t
    ensures Exist(j, [] + [Step(t, IndexAt(j.schema, j.base, v))]) == Some(v)
  {
    var p := [] + [Step(t, IndexAt(j.schema, j.base, v))];
    assert |p| == 1 && p[0] == Step(t, IndexAt(j.schema, j.base, v)) && Last(p) == p[0];
    assert ValidTable(j.schema, t);
    assert ValidRow(j.schema, j.base[v]);
    if t != SYSTEM_TABLE {
      IndexLooksUp(j, v);
    }
  }

  // ---------- every reading ----------

  /** The configuration can be written, and there is nothing to do. */
  ghost predicate Harmless(j: Job, refList: RefList) {
    WellPosed(j) && ValidGraph(GraphOf(j.schema, j.base)) && Idle(j, refList)
  }

  /** Whatever the reader returns is written back without effect. */
  ghost predicate EveryReadingHarmless(j: Job, refList: RefList)
    requires ValidSchema(j.schema)
  {
    forall back {:trigger MayReadAll(j.schema, j.base, Some(back))} ::
      MayReadAll(j.schema, j.base, Some(back)) ==> Harmless(j.(root := RootOf(back)), refList)
  }

  lemma TidyReading(j: Job, config: Config, refList: RefList, back: Config)
    requires InOrder(j) && ReadAll(j.schema, j.base) == Some(config) && j.root == RootOf(config)
    requires ValidGraph(GraphOf(j.schema, j.base)) && Quiet(j)
    requires Tidy(j.schema, j.base, true) && MayReadAll(j.schema, j.base, Some(back))
    ensures Harmless(j.(root := RootOf(back)), refList)
  {
    ConfigIsRead(j.schema, j.base, Some(back));
    assert j.(root := RootOf(back)) == j;
    ReadingIs(j, config);
    ReadingIsWellPosed(j);
    ReadingIsIdle(j, refList);
  }

  lemma IntendedIsQuiet(j: Job, config: Config, refList: RefList)
    requires InOrder(j) && ReadAll(j.schema, j.base) == Some(config) && j.root == RootOf(config)
    requires ValidGraph(GraphOf(j.schema, j.base)) && EveryReadingHarmless(j, refList)
    ensures Quiet(j)
  {
    OrderIsTidy(j, false);
    IntendedConfig(j.schema, j.base);
    assert j.(root := RootOf(config)) == j;
    ReadingIs(j, config);
    ReadingIsIdle(j, refList);
  }

  lemma HarmlessIsTidy(j: Job, refList: RefList)
    requires InOrder(j) && ReadAll(j.schema, j.base).Some?
    requires TellsApart(j.schema, j.base) && EveryReadingHarmless(j, refList)
    ensures Tidy(j.schema, j.base, true)
  {
    OrderIsTidy(j, false);
    if !Tidy(j.schema, j.base, true) {
      var other := OtherConfig(j.schema, j.base);
      var misread := j.(root := RootOf(other));
      assert Harmless(misread, refList);
      OrderOfBase(j, misread);
      forall p | NodeAt(misread.root, p).Some? && Exist(misread, p).Some?
        ensures !Changed(misread, p)
      {
        assert AtRest(misread, refList, p);
      }
      RootAsMeant(misread);
    }
  }

  /** On a replica in order, `j` being the job that writes what it stands for: all readings are written
      back without effect if key/value columns show their rows all or not at all and no row that was not
      read can be deleted.  The latter is necessary, and so is the former where the writer can tell rows
      that do not show from those beside them that do; rows that look alike to it are not changed by being
      mistaken for one another. */
  lemma WriteBackExactly(j: Job, config: Config, refList: RefList)
    requires InOrder(j) && ReadAll(j.schema, j.base) == Some(config) && j.root == RootOf(config)
    ensures ValidGraph(GraphOf(j.schema, j.base))
    ensures Tidy(j.schema, j.base, true) && Quiet(j) ==> EveryReadingHarmless(j, refList)
    ensures EveryReadingHarmless(j, refList) ==> Quiet(j)
    ensures TellsApart(j.schema, j.base) ==> (EveryReadingHarmless(j, refList) <==> Tidy(j.schema, j.base, true) && Quiet(j))
  {
    GraphIsValid(j.schema, j.base);
    if Tidy(j.schema, j.base, true) && Quiet(j) {
      forall back | MayReadAll(j.schema, j.base, Some(back))
        ensures Harmless(j.(root := RootOf(back)), refList)
      {
        TidyReading(j, config, refList, back);
      }
    }
    if EveryReadingHarmless(j, refList) {
      IntendedIsQuiet(j, config, refList);
      if TellsApart(j.schema, j.base) {
        HarmlessIsTidy(j, refList);
      }
    }
  }
}
