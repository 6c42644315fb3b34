/** A replica that is not tidy is read differently for different orders of its dictionaries. */
module ConfigOrders {
  import opened Options
  import opened Database
  import opened Deletion
  import opened ConfigTree
  import opened ConfigRead
  import opened ConfigReading
  import opened ConfigReader

  // ---------- orders ----------

  lemma {:induction false} SomeLine(rows: set<Uuid>) returns (order: seq<Uuid>)
    ensures Lines(order, rows)
    decreases rows
  {
    if rows == {} {
      order := [];
    } else {
      var v :| v in rows;
      var rest := SomeLine(rows - {v});
      order := [v] + rest;
      assert forall i :: 0 <= i < |rest| ==> rest[i] in rest;
    }
  }

  /** The keys of children that show, before those of children that do not. */
  lemma LuckyOrder(reading: map<string, Option<Data>>) returns (keys: seq<string>, data: seq<Option<Data>>)
    ensures Enumerates(reading, keys, data) && ShownFirst(data)
  {
    var shown := set k | k in reading && reading[k].Some?;
    var first := SomeOrder(shown);
    var second := SomeOrder(reading.Keys - shown);
    assert forall i :: 0 <= i < |first| ==> first[i] in first;
    assert forall i :: 0 <= i < |second| ==> second[i] in second;
    keys := first + second;
    assert forall i :: 0 <= i < |keys| ==> keys[i] in keys;
    data := seq(|keys|, i requires 0 <= i < |keys| => reading[keys[i]]);
  }

  /** A row whose index no other row has that shows is found under it. */
  lemma {:induction false} CollectedAt(s: Schema, db: Db, order: seq<Uuid>, data: seq<Option<Data>>, i: nat)
    requires |order| == |data| && i < |order| && data[i].Some?
    requires forall k :: 0 <= k < |order| && k != i && data[k].Some? ==> IndexAt(s, db, order[k]) != IndexAt(s, db, order[i])
    ensures IndexAt(s, db, order[i]) in Collected(s, db, order, data)
    ensures Collected(s, db, order, data)[IndexAt(s, db, order[i])] == data[i].value
  {
    var n := |data| - 1;
    if i < n {
      CollectedAt(s, db, order[..n], data[..n], i);
    }
  }

  // ---------- what is meant can be read ----------

  ghost function RowData(s: Schema, db: Db, t: Name, order: seq<Uuid>): seq<Option<Data>>
    requires ValidSchema(s)
  {
    seq(|order|, i requires 0 <= i < |order| => ReadRow(s, db, t, order[i]))
  }

  lemma {:induction false} IntendedRows(s: Schema, db: Db, t: Name, rows: set<Uuid>)
    requires ValidSchema(s) && DistinctIndexes(s, db, t, rows)
    requires forall v {:trigger TidyRow(s, db, t, v, false)} :: v in rows ==> TidyRow(s, db, t, v, false)
    ensures MayReadRows(s, db, t, rows, ByIndex(Listing(s, db, t, rows)))
    decreases Level(s, t), 4
  {
    var order := SomeLine(rows);
    var data := RowData(s, db, t, order);
    forall i | 0 <= i < |order|
      ensures MayRead(s, db, t, order[i], data[i])
    {
      assert order[i] in order;
      IntendedRow(s, db, t, order[i]);
    }
    assert EachRead(s, db, t, order, data);
    ListIsRead(s, db, t, rows, rows, order, data);
  }

  lemma {:induction false} EnumeratedIsRead(s: Schema, db: Db, t: Name, entries: map<string, Uuid>, keys: seq<string>, data: seq<Option<Data>>)
    requires ValidSchema(s) && Enumerates(EntryData(s, db, t, entries), keys, data)
    requires forall v {:trigger TidyRow(s, db, t, v, false)} :: v in entries.Values ==> TidyRow(s, db, t, v, false)
    ensures EachKeyRead(s, db, t, entries, keys, data)
    decreases Level(s, t), 4
  {
    forall i | 0 <= i < |keys|
      ensures MayRead(s, db, t, entries[keys[i]], data[i])
    {
      assert entries[keys[i]] in entries.Values;
      IntendedRow(s, db, t, entries[keys[i]]);
    }
  }

  lemma {:induction false} IntendedEntries(s: Schema, db: Db, t: Name, entries: map<string, Uuid>)
    requires ValidSchema(s)
    requires forall v {:trigger TidyRow(s, db, t, v, false)} :: v in entries.Values ==> TidyRow(s, db, t, v, false)
    ensures MayReadEntries(s, db, t, entries, Shows(EntryData(s, db, t, entries)))
    decreases Level(s, t), 5
  {
    var reading := EntryData(s, db, t, entries);
    var keys, data := LuckyOrder(reading);
    CodedIsIntended(keys, data);
    IntendedIs(reading, keys, data);
    EnumeratedIsRead(s, db, t, entries, keys, data);
  }

  lemma {:induction false} IntendedColumn(s: Schema, db: Db, t: Name, c: Name, column: RefValue)
    requires ValidSchema(s) && t in s.tables && IsChildColumn(s.tables[t], c) && TidyBelow(s, db, t, c, column, false)
    ensures MayReadColumn(s, db, t, c, column, ReadChildren(s, db, t, c, column))
    decreases Level(s, t), 0
  {
    assert ValidColumn(s, t, c);
    var ct := s.tables[t].references[c].refTable;
    match column
    case Rows(rows) =>
      IntendedRows(s, db, ct, rows);
    case Map(entries) =>
      IntendedEntries(s, db, ct, entries);
      ShownEntries(s, db, t, c, entries);
  }

  /** What a row is meant to read as is read in some order. */
  lemma {:induction false} IntendedRow(s: Schema, db: Db, t: Name, u: Uuid)
    requires ValidSchema(s) && TidyRow(s, db, t, u, false)
    ensures MayRead(s, db, t, u, ReadRow(s, db, t, u))
    decreases Level(s, t), 3
  {
    if Entered(s, db, t, u) {
      forall c | c in db[u].refs && IsChildColumn(s.tables[t], c)
        ensures MayReadColumn(s, db, t, c, db[u].refs[c], ReadChildren(s, db, t, c, db[u].refs[c]))
      {
        IntendedColumn(s, db, t, c, db[u].refs[c]);
      }
    }
  }

  // ---------- something else can be read as well ----------

  lemma OthersDiffer(s: Schema, db: Db, t: Name, rows: set<Uuid>, order: seq<Uuid>, i: nat, k: nat)
    requires ValidSchema(s) && Lines(order, rows) && DistinctIndexes(s, db, t, rows) && i < |order| && k < |order| && i != k
    requires ReadRow(s, db, t, order[i]).Some? && ReadRow(s, db, t, order[k]).Some?
    ensures IndexAt(s, db, order[k]) != IndexAt(s, db, order[i])
  {
    assert order[i] in order && order[k] in order;
  }

  /** Another reading of one row of a list makes another reading of the list. */
  lemma ListDiffers(s: Schema, db: Db, t: Name, rows: set<Uuid>, order: seq<Uuid>, i: nat, other: Data)
    requires ValidSchema(s) && Lines(order, rows) && DistinctIndexes(s, db, t, rows) && i < |order|
    requires ReadRow(s, db, t, order[i]).Some? && ReadRow(s, db, t, order[i]) != Some(other)
    ensures var children, meant := Collected(s, db, order, RowData(s, db, t, order)[i := Some(other)]), ByIndex(Listing(s, db, t, rows));
            children != meant && children != map[] && meant != map[]
  {
    var meant := RowData(s, db, t, order);
    forall k | 0 <= k < |order| && k != i && meant[k].Some?
      ensures IndexAt(s, db, order[k]) != IndexAt(s, db, order[i])
    {
      OthersDiffer(s, db, t, rows, order, i, k);
    }
    ListIsRead(s, db, t, rows, rows, order, meant);
    CollectedAt(s, db, order, meant, i);
    CollectedAt(s, db, order, meant[i := Some(other)], i);
  }

  lemma {:induction false} EachOther(s: Schema, db: Db, t: Name, rows: set<Uuid>, order: seq<Uuid>, i: nat, other: Data)
    requires ValidSchema(s) && Lines(order, rows) && i < |order| && MayRead(s, db, t, order[i], Some(other))
    requires forall w {:trigger TidyRow(s, db, t, w, false)} :: w in rows ==> TidyRow(s, db, t, w, false)
    ensures EachRead(s, db, t, order, RowData(s, db, t, order)[i := Some(other)])
    decreases Level(s, t), 4
  {
    forall k | 0 <= k < |order| && k != i
      ensures MayRead(s, db, t, order[k], ReadRow(s, db, t, order[k]))
    {
      assert order[k] in order;
      IntendedRow(s, db, t, order[k]);
    }
  }

  lemma {:induction false} RowsWith(s: Schema, db: Db, t: Name, rows: set<Uuid>, v: Uuid, other: Data) returns (children: map<string, Data>)
    requires ValidSchema(s) && DistinctIndexes(s, db, t, rows) && v in rows
    requires MayRead(s, db, t, v, Some(other)) && ReadRow(s, db, t, v).Some? && ReadRow(s, db, t, v) != Some(other)
    requires forall w {:trigger TidyRow(s, db, t, w, false)} :: w in rows ==> TidyRow(s, db, t, w, false)
    ensures MayReadRows(s, db, t, rows, children)
    ensures children != ByIndex(Listing(s, db, t, rows)) && children != map[] && ByIndex(Listing(s, db, t, rows)) != map[]
    decreases Level(s, t), 5
  {
    var order := SomeLine(rows);
    var i :| 0 <= i < |order| && order[i] == v;
    EachOther(s, db, t, rows, order, i, other);
    ListDiffers(s, db, t, rows, order, i, other);
    children := Collected(s, db, order, RowData(s, db, t, order)[i := Some(other)]);
    CollectedMayBeRead(s, db, t, rows, order, RowData(s, db, t, order)[i := Some(other)]);
  }

  lemma CollectedMayBeRead(s: Schema, db: Db, t: Name, rows: set<Uuid>, order: seq<Uuid>, data: seq<Option<Data>>)
    requires ValidSchema(s) && Lines(order, rows) && EachRead(s, db, t, order, data)
    ensures MayReadRows(s, db, t, rows, Collected(s, db, order, data))
  {
  }

  /** Another reading of a list, for another reading of one of its rows. */
  lemma {:induction false} OtherRows(s: Schema, db: Db, t: Name, rows: set<Uuid>, v: Uuid) returns (children: map<string, Data>)
    requires ValidSchema(s) && DistinctIndexes(s, db, t, rows) && v in rows && !TidyRow(s, db, t, v, true)
    requires forall w {:trigger TidyRow(s, db, t, w, false)} :: w in rows ==> TidyRow(s, db, t, w, false)
    ensures MayReadRows(s, db, t, rows, children)
    ensures children != ByIndex(Listing(s, db, t, rows)) && children != map[] && ByIndex(Listing(s, db, t, rows)) != map[]
    decreases Level(s, t), 6
  {
    var other := OtherRow(s, db, t, v);
    children := RowsWith(s, db, t, rows, v, other);
  }

  /** Another reading of one row of a key/value column where all show makes another reading of the column. */
  lemma EntriesDiffer(reading: map<string, Option<Data>>, keys: seq<string>, data: seq<Option<Data>>, i: nat, other: Data)
    requires Enumerates(reading, keys, data) && (forall k :: k in reading ==> reading[k].Some?)
    requires i < |keys| && data[i] != Some(other)
    ensures var children, meant := AsCoded(keys, data[i := Some(other)]), Shows(reading);
            children != meant && children != map[] && meant != map[]
  {
    var changed := data[i := Some(other)];
    CodedIsIntended(keys, changed);
    IntendedKeys(keys, changed, i);
    assert keys[i] in Shows(reading) && Shows(reading)[keys[i]] == data[i].value;
  }

  lemma {:induction false} EachKeyOther(s: Schema, db: Db, t: Name, entries: map<string, Uuid>, keys: seq<string>, data: seq<Option<Data>>,
                                        i: nat, other: Data)
    requires ValidSchema(s) && Enumerates(EntryData(s, db, t, entries), keys, data)
    requires i < |keys| && keys[i] in entries && MayRead(s, db, t, entries[keys[i]], Some(other))
    requires forall w {:trigger TidyRow(s, db, t, w, false)} :: w in entries.Values ==> TidyRow(s, db, t, w, false)
    ensures EachKeyRead(s, db, t, entries, keys, data[i := Some(other)])
    decreases Level(s, t), 5
  {
    EnumeratedIsRead(s, db, t, entries, keys, data);
  }

  /** Another reading of a key/value column, for another reading of one of its rows. */
  lemma {:induction false} OtherEntry(s: Schema, db: Db, t: Name, entries: map<string, Uuid>, k: string) returns (children: map<string, Data>)
    requires ValidSchema(s) && AllOrNone(s, db, t, entries) && k in entries && !TidyRow(s, db, t, entries[k], true)
    requires forall w {:trigger TidyRow(s, db, t, w, false)} :: w in entries.Values ==> TidyRow(s, db, t, w, false)
    ensures MayReadEntries(s, db, t, entries, children)
    ensures var meant := Shows(EntryData(s, db, t, entries)); children != meant && children != map[] && meant != map[]
    decreases Level(s, t), 7
  {
    assert entries[k] in entries.Values;
    var other := OtherRow(s, db, t, entries[k]);
    children := EntriesWith(s, db, t, entries, k, other);
  }

  lemma {:induction false} EntriesWith(s: Schema, db: Db, t: Name, entries: map<string, Uuid>, k: string, other: Data)
    returns (children: map<string, Data>)
    requires ValidSchema(s) && AllOrNone(s, db, t, entries) && k in entries
    requires MayRead(s, db, t, entries[k], Some(other)) && ReadRow(s, db, t, entries[k]).Some? && ReadRow(s, db, t, entries[k]) != Some(other)
    requires forall w {:trigger TidyRow(s, db, t, w, false)} :: w in entries.Values ==> TidyRow(s, db, t, w, false)
    ensures MayReadEntries(s, db, t, entries, children)
    ensures var meant := Shows(EntryData(s, db, t, entries)); children != meant && children != map[] && meant != map[]
    decreases Level(s, t), 6
  {
    var reading := EntryData(s, db, t, entries);
    AllShow(reading, k);
    var keys, data, i := LuckyPlace(reading, k);
    EachKeyOther(s, db, t, entries, keys, data, i, other);
    EntriesDiffer(reading, keys, data, i, other);
    children := AsCoded(keys, data[i := Some(other)]);
    CodedMayBeRead(s, db, t, entries, keys, data[i := Some(other)]);
  }

  lemma AllShow(reading: map<string, Option<Data>>, k: string)
    requires UniformData(reading) && k in reading && reading[k].Some?
    ensures forall l :: l in reading ==> reading[l].Some?
  {
  }

  lemma LuckyPlace(reading: map<string, Option<Data>>, k: string) returns (keys: seq<string>, data: seq<Option<Data>>, i: nat)
    requires k in reading
    ensures Enumerates(reading, keys, data) && ShownFirst(data) && i < |keys| && keys[i] == k && data[i] == reading[k]
  {
    keys, data := LuckyOrder(reading);
    assert k in keys;
    i :| 0 <= i < |keys| && keys[i] == k;
  }

  lemma CodedMayBeRead(s: Schema, db: Db, t: Name, entries: map<string, Uuid>, keys: seq<string>, data: seq<Option<Data>>)
    requires ValidSchema(s) && EachKeyRead(s, db, t, entries, keys, data)
    ensures MayReadEntries(s, db, t, entries, AsCoded(keys, data))
  {
  }

  /** Another reading of a key/value column of which some rows show and some do not. */
  lemma {:induction false} OtherOrder(s: Schema, db: Db, t: Name, entries: map<string, Uuid>) returns (children: map<string, Data>)
    requires ValidSchema(s) && !AllOrNone(s, db, t, entries)
    requires forall w {:trigger TidyRow(s, db, t, w, false)} :: w in entries.Values ==> TidyRow(s, db, t, w, false)
    ensures MayReadEntries(s, db, t, entries, children)
    ensures var meant := Shows(EntryData(s, db, t, entries)); children != meant && children != map[] && meant != map[]
    decreases Level(s, t), 5
  {
    var reading := EntryData(s, db, t, entries);
    var keys, data := OrderThatLoses(reading);
    EnumeratedIsRead(s, db, t, entries, keys, data);
    children := AsCoded(keys, data);
    var k :| k in reading && reading[k].Some?;
    assert k in Shows(reading);
    assert k in keys;
    var i :| 0 <= i < |keys| && keys[i] == k;
    SomeShown(data, i);
    CodedKeys(keys, data);
    assert keys[0] in children;
  }

  lemma {:induction false} SomeShown(data: seq<Option<Data>>, i: nat)
    requires i < |data| && data[i].Some?
    ensures Shown(data) > 0
  {
    var n := |data| - 1;
    if i < n {
      SomeShown(data[..n], i);
    }
  }

  lemma {:induction false} OtherColumn(s: Schema, db: Db, t: Name, c: Name, column: RefValue) returns (children: map<string, Data>)
    requires ValidSchema(s) && t in s.tables && IsChildColumn(s.tables[t], c)
    requires TidyBelow(s, db, t, c, column, false) && !TidyBelow(s, db, t, c, column, true)
    ensures MayReadColumn(s, db, t, c, column, children)
    ensures var meant := ReadChildren(s, db, t, c, column); children != meant && children != map[] && meant != map[]
    decreases Level(s, t), 0
  {
    assert ValidColumn(s, t, c);
    var ct := s.tables[t].references[c].refTable;
    match column
    case Rows(rows) =>
      var v :| v in rows && !TidyRow(s, db, ct, v, true);
      children := OtherRows(s, db, ct, rows, v);
    case Map(entries) =>
      ShownEntries(s, db, t, c, entries);
      if AllOrNone(s, db, ct, entries) {
        var v :| v in entries.Values && !TidyRow(s, db, ct, v, true);
        var k :| k in entries && entries[k] == v;
        children := OtherEntry(s, db, ct, entries, k);
      } else {
        children := OtherOrder(s, db, ct, entries);
      }
  }

  /** A row below which a key/value column is not tidy reads as something else in another order. */
  lemma {:induction false} OtherRow(s: Schema, db: Db, t: Name, u: Uuid) returns (other: Data)
    requires ValidSchema(s) && TidyRow(s, db, t, u, false) && !TidyRow(s, db, t, u, true)
    ensures ReadRow(s, db, t, u).Some? && MayRead(s, db, t, u, Some(other)) && ReadRow(s, db, t, u) != Some(other)
    decreases Level(s, t), 3
  {
    var c :| IsChildColumn(s.tables[t], c) && c in db[u].refs && !TidyBelow(s, db, t, c, db[u].refs[c], true);
    var children := OtherColumn(s, db, t, c, db[u].refs[c]);
    var columns := ReadColumns(s, db, t, db[u].refs);
    assert c in columns;
    var d := ReadRow(s, db, t, u).value;
    other := d.(children := columns[c := Children(children)]);
    forall b | b in db[u].refs && IsChildColumn(s.tables[t], b)
      ensures MayReadColumn(s, db, t, b, db[u].refs[b], if b in other.children then other.children[b].entries else map[])
    {
      if b != c {
        IntendedColumn(s, db, t, b, db[u].refs[b]);
      }
    }
    assert other.children[c] != columns[c];
  }

  // ---------- whole replicas ----------

  lemma TableAsMeant(s: Schema, db: Db, t: Name)
    requires ValidSchema(s) && Tidy(s, db, false) && IsTopLevel(s, t)
    ensures MayReadRows(s, db, t, RowsIn(db, t), ReadTable(s, db, t))
    ensures ReadTable(s, db, t) == if t in ReadRoot(s, db) then ReadRoot(s, db)[t].entries else map[]
  {
    assert TidyTable(s, db, t, false);
    IntendedRows(s, db, t, RowsIn(db, t));
  }

  lemma OtherTable(s: Schema, db: Db) returns (t: Name, children: map<string, Data>)
    requires ValidSchema(s) && Tidy(s, db, false) && !Tidy(s, db, true)
    ensures IsTopLevel(s, t) && MayReadRows(s, db, t, RowsIn(db, t), children)
    ensures children != ReadTable(s, db, t) && children != map[] && ReadTable(s, db, t) != map[]
  {
    t :| IsTopLevel(s, t) && !TidyTable(s, db, t, true);
    assert TidyTable(s, db, t, false);
    var u :| u in RowsIn(db, t) && !TidyRow(s, db, t, u, true);
    children := OtherRows(s, db, t, RowsIn(db, t), u);
  }

  lemma TableOrOther(s: Schema, db: Db, meant: Root, t: Name, children: map<string, Data>, b: Name)
    requires ValidSchema(s) && Tidy(s, db, false) && IsTopLevel(s, b) && meant == ReadRoot(s, db)
    requires MayReadRows(s, db, t, RowsIn(db, t), children)
    ensures var root := meant[t := Children(children)]; MayReadRows(s, db, b, RowsIn(db, b), if b in root then root[b].entries else map[])
  {
    if b != t {
      TableAsMeant(s, db, b);
    }
  }

  lemma OtherRoot(s: Schema, db: Db) returns (root: Root)
    requires ValidSchema(s) && Tidy(s, db, false) && !Tidy(s, db, true)
    ensures MayReadRoot(s, db, root) && root != ReadRoot(s, db) && ReadRoot(s, db).Keys <= root.Keys
  {
    var t, children := OtherTable(s, db);
    var meant := ReadRoot(s, db);
    root := RootWith(s, db, meant, t, children);
    TableAsMeant(s, db, t);
    assert root[t].entries != meant[t].entries;
  }

  lemma RootWith(s: Schema, db: Db, meant: Root, t: Name, children: map<string, Data>) returns (root: Root)
    requires ValidSchema(s) && Tidy(s, db, false) && meant == ReadRoot(s, db)
    requires IsTopLevel(s, t) && MayReadRows(s, db, t, RowsIn(db, t), children) && children != map[]
    ensures root == meant[t := Children(children)] && MayReadRoot(s, db, root)
  {
    root := meant[t := Children(children)];
    forall b | IsTopLevel(s, b)
      ensures MayReadRows(s, db, b, RowsIn(db, b), if b in root then root[b].entries else map[])
    {
      TableOrOther(s, db, meant, t, children, b);
    }
    RootShape(s, db, meant);
  }

  lemma RootShape(s: Schema, db: Db, root: Root)
    requires ValidSchema(s) && root == ReadRoot(s, db)
    ensures forall t :: t in root ==> IsTopLevel(s, t) && root[t].entries != map[]
  {
  }

  lemma RootOfRead(s: Schema, db: Db, root: Root)
    requires ValidSchema(s) && MayReadRoot(s, db, root) && SYSTEM_TABLE in root
    ensures "" in root[SYSTEM_TABLE].entries
    ensures RootOf(Config(root[SYSTEM_TABLE].entries[""], root - {SYSTEM_TABLE})) == root
  {
    forall k | k in root[SYSTEM_TABLE].entries
      ensures k == ""
    {
      SystemKey(s, db, root, k);
    }
    RootRoundTrip(root);
  }

  lemma RootOfReading(s: Schema, db: Db, config: Config)
    requires ValidSchema(s) && ReadAll(s, db) == Some(config)
    ensures RootOf(config) == ReadRoot(s, db)
  {
    var root := ReadRoot(s, db);
    forall k | k in root[SYSTEM_TABLE].entries
      ensures k == ""
    {
      SystemKeys(s, db, k);
    }
    RootRoundTrip(root);
  }

  /** Where a key/value column that is gone into shows some rows and not others, another configuration
      may be read as well. */
  lemma OtherConfig(s: Schema, db: Db) returns (other: Config)
    requires ValidSchema(s) && Tidy(s, db, false) && !Tidy(s, db, true) && ReadAll(s, db).Some?
    ensures MayReadAll(s, db, Some(other)) && RootOf(other) != ReadRoot(s, db)
  {
    var root := OtherRoot(s, db);
    var config := ReadAll(s, db).value;
    RootOfReading(s, db, config);
    RootOfRead(s, db, root);
    other := Config(root[SYSTEM_TABLE].entries[""], root - {SYSTEM_TABLE});
  }

  /** Where lists are in order and there is a configuration to read, all orders agree on it exactly when
      the rows of every key/value column that is gone into show all or not at all. */
  lemma OneReadingExactly(s: Schema, db: Db)
    requires ValidSchema(s) && Tidy(s, db, false) && ReadAll(s, db).Some?
    ensures Tidy(s, db, true) <==> forall config {:trigger MayReadAll(s, db, config)} :: MayReadAll(s, db, config) ==> config == ReadAll(s, db)
  {
    if Tidy(s, db, true) {
      forall config | MayReadAll(s, db, config)
        ensures config == ReadAll(s, db)
      {
        ConfigIsRead(s, db, config);
      }
    } else {
      var other := OtherConfig(s, db);
      RootOfReading(s, db, ReadAll(s, db).value);
      assert MayReadAll(s, db, Some(other));
    }
  }

  /** What a replica that is in order, but for its key/value columns, is meant to read as may be read. */
  lemma IntendedConfig(s: Schema, db: Db)
    requires ValidSchema(s) && Tidy(s, db, false) && ReadAll(s, db).Some?
    ensures MayReadAll(s, db, ReadAll(s, db))
  {
    var root := ReadRoot(s, db);
    RootOfReading(s, db, ReadAll(s, db).value);
    forall t | IsTopLevel(s, t)
      ensures MayReadRows(s, db, t, RowsIn(db, t), if t in root then root[t].entries else map[])
    {
      TableAsMeant(s, db, t);
    }
    RootShape(s, db, root);
  }

  // ---------- a replica in order ----------

  lemma OrderIsReadable(s: Schema, db: Db)
    requires ValidDb(s, db)
    ensures Readable(s, db)
  {
    forall u, c, v | u in db && v in db && c in db[u].refs && v in Targets(db[u].refs[c])
      ensures RightTable(s, db, u, c, v)
    {
      assert ValidTarget(s, db, u, c, v);
    }
  }

  /** In every key/value column that reading goes into the rows show all or not at all. */
  ghost predicate KeyedUniform(s: Schema, db: Db)
    requires ValidSchema(s)
  {
    forall u, c {:trigger UniformColumn(s, db, u, c)} :: UniformColumn(s, db, u, c)
  }

  ghost predicate UniformColumn(s: Schema, db: Db, u: Uuid, c: Name)
    requires ValidSchema(s)
  {
    u in db && Entered(s, db, db[u].table, u) && IsChildColumn(s.tables[db[u].table], c) && c in db[u].refs && db[u].refs[c].Map? ==>
      AllOrNone(s, db, s.tables[db[u].table].references[c].refTable, db[u].refs[c].entries)
  }

  /** Rows of one table have different indexes. */
  lemma OrderIsDistinct(j: Job, t: Name, rows: set<Uuid>)
    requires InOrder(j) && forall v :: v in rows ==> v in j.base && j.base[v].table == t
    requires t in j.schema.tables && (j.schema.tables[t].indexes == [] ==> t == SYSTEM_TABLE)
    ensures DistinctIndexes(j.schema, j.base, t, rows)
  {
    forall v, w | v in rows && w in rows && IndexAt(j.schema, j.base, v) == IndexAt(j.schema, j.base, w)
      ensures v == w
    {
      assert ValidRow(j.schema, j.base[v]) && ValidRow(j.schema, j.base[w]);
      if j.schema.tables[t].indexes != [] {
        IndexLooksUp(j, v);
        IndexLooksUp(j, w);
      }
    }
  }

  lemma OrderColumnTidy(j: Job, t: Name, u: Uuid, c: Name, keyed: bool)
    requires InOrder(j) && (keyed ==> KeyedUniform(j.schema, j.base))
    requires Entered(j.schema, j.base, t, u) && IsChildColumn(j.schema.tables[t], c) && c in j.base[u].refs
    ensures var ct := j.schema.tables[t].references[c].refTable;
            && ct in j.schema.tables && Level(j.schema, ct) < Level(j.schema, t)
            && TidyColumn(j.schema, j.base, ct, j.base[u].refs[c], keyed)
  {
    var ct := j.schema.tables[t].references[c].refTable;
    assert ValidColumn(j.schema, t, c);
    assert ValidRow(j.schema, j.base[u]);
    assert keyed ==> UniformColumn(j.schema, j.base, u, c);
    forall v | v in Targets(j.base[u].refs[c])
      ensures v in j.base && j.base[v].table == ct
    {
      KidIsLower(j.schema, j.base, u, c, v);
    }
    if j.base[u].refs[c].Rows? {
      OrderIsDistinct(j, ct, j.base[u].refs[c].rows);
    }
  }

  lemma {:induction false} OrderRowTidy(j: Job, t: Name, u: Uuid, keyed: bool)
    requires InOrder(j) && (keyed ==> KeyedUniform(j.schema, j.base))
    ensures TidyRow(j.schema, j.base, t, u, keyed)
    decreases Level(j.schema, t)
  {
    if Entered(j.schema, j.base, t, u) {
      forall c | IsChildColumn(j.schema.tables[t], c) && c in j.base[u].refs
        ensures TidyBelow(j.schema, j.base, t, c, j.base[u].refs[c], keyed)
      {
        OrderColumnTidy(j, t, u, c, keyed);
        var ct := j.schema.tables[t].references[c].refTable;
        forall v | v in Targets(j.base[u].refs[c])
          ensures TidyRow(j.schema, j.base, ct, v, keyed)
        {
          OrderRowTidy(j, ct, v, keyed);
        }
      }
    }
  }

  /** A replica in order is read without loss if its key/value columns are uniform. */
  lemma OrderIsTidy(j: Job, keyed: bool)
    requires InOrder(j) && (keyed ==> KeyedUniform(j.schema, j.base))
    ensures Tidy(j.schema, j.base, keyed)
  {
    forall t | IsTopLevel(j.schema, t)
      ensures TidyTable(j.schema, j.base, t, keyed)
    {
      assert ValidTable(j.schema, t);
      OrderIsDistinct(j, t, RowsIn(j.base, t));
      forall u | u in RowsIn(j.base, t)
        ensures TidyRow(j.schema, j.base, t, u, keyed)
      {
        OrderRowTidy(j, t, u, keyed);
      }
    }
  }

  /** Order is a matter of the replica, not of the configuration. */
  lemma OrderOfBase(a: Job, b: Job)
    requires InOrder(a) && b == a.(root := b.root)
    ensures InOrder(b)
  {
    forall e | e in b.indexMap
      ensures EntryExact(b, e)
    {
      assert EntryExact(a, e);
    }
    forall u | Indexed(b.schema, b.base, u)
      ensures RowListed(b, u)
    {
      assert RowListed(a, u);
    }
  }
}
