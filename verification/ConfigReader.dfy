/** The loops that read rows (ops/_read.py, read in ops/dc.py) against what reading means. */
module ConfigReader {
  import opened Options
  import opened Database
  import opened Deletion
  import opened ConfigTree
  import opened ConfigRead
  import opened ConfigReading

  // ---------- key/value columns ----------

  function Shown(data: seq<Option<Data>>): nat {
    if data == [] then 0 else Shown(data[..|data| - 1]) + if data[|data| - 1].Some? then 1 else 0
  }

  lemma {:induction false} ShownBound(data: seq<Option<Data>>)
    ensures Shown(data) <= |data|
  {
    if data != [] {
      ShownBound(data[..|data| - 1]);
    }
  }

  /** The children of a key/value column as they are meant to be read: each under its own key. */
  function Intended(keys: seq<string>, data: seq<Option<Data>>): map<string, Data>
    requires |keys| == |data|
  {
    if data == [] then map[]
    else
      var n := |data| - 1;
      var init := Intended(keys[..n], data[..n]);
      if data[n].Some? then init[keys[n] := data[n].value] else init
  }

  /** As they are read: the position in the list of keys only moves on when a child shows. */
  function AsCoded(keys: seq<string>, data: seq<Option<Data>>): map<string, Data>
    requires |data| <= |keys|
  {
    if data == [] then map[]
    else
      var n := |data| - 1;
      ShownBound(data[..n]);
      var init := AsCoded(keys, data[..n]);
      if data[n].Some? then init[keys[Shown(data[..n])] := data[n].value] else init
  }

  /** Children that show come before children that do not. */
  ghost predicate ShownFirst(data: seq<Option<Data>>) {
    forall i, k :: 0 <= i < k < |data| && data[k].Some? ==> data[i].Some?
  }

  ghost predicate DistinctKeys(keys: seq<string>) {
    forall i, k :: 0 <= i < k < |keys| ==> keys[i] != keys[k]
  }

  lemma {:induction false} AllShown(data: seq<Option<Data>>)
    requires forall i :: 0 <= i < |data| ==> data[i].Some?
    ensures Shown(data) == |data|
  {
    if data != [] {
      AllShown(data[..|data| - 1]);
    }
  }

  lemma {:induction false} PrefixIsCoded(keys: seq<string>, data: seq<Option<Data>>)
    requires |data| <= |keys| && ShownFirst(data)
    ensures AsCoded(keys, data) == Intended(keys[..|data|], data)
  {
    if data != [] {
      var n := |data| - 1;
      PrefixIsCoded(keys, data[..n]);
      assert keys[..|data|][..n] == keys[..n];
      if data[n].Some? {
        AllShown(data[..n]);
      }
    }
  }

  lemma {:induction false} CodedKeys(keys: seq<string>, data: seq<Option<Data>>)
    requires |data| <= |keys|
    ensures Shown(data) <= |data|
    ensures forall i :: 0 <= i < Shown(data) ==> keys[i] in AsCoded(keys, data)
    ensures forall k :: k in AsCoded(keys, data) ==> exists i :: 0 <= i < Shown(data) && keys[i] == k
  {
    ShownBound(data);
    if data != [] {
      CodedKeys(keys, data[..|data| - 1]);
    }
  }

  lemma {:induction false} IntendedKeys(keys: seq<string>, data: seq<Option<Data>>, i: nat)
    requires |keys| == |data| && i < |data| && DistinctKeys(keys)
    ensures keys[i] in Intended(keys, data) <==> data[i].Some?
    ensures data[i].Some? ==> Intended(keys, data)[keys[i]] == data[i].value
  {
    var n := |data| - 1;
    if i < n {
      IntendedKeys(keys[..n], data[..n], i);
    } else {
      FreshKey(keys[..n], data[..n], keys[n]);
    }
  }

  lemma {:induction false} FreshKey(keys: seq<string>, data: seq<Option<Data>>, k: string)
    requires |keys| == |data| && k !in keys
    ensures k !in Intended(keys, data)
  {
    if data != [] {
      var n := |data| - 1;
      assert keys[n] in keys;
      FreshKey(keys[..n], data[..n], k);
    }
  }

  /** The reading is the intended one exactly when the children that show come first. */
  lemma CodedIsIntended(keys: seq<string>, data: seq<Option<Data>>)
    requires |keys| == |data| && DistinctKeys(keys)
    ensures AsCoded(keys, data) == Intended(keys, data) <==> ShownFirst(data)
  {
    assert keys[..|data|] == keys;
    if ShownFirst(data) {
      PrefixIsCoded(keys, data);
    } else if AsCoded(keys, data) == Intended(keys, data) {
      var i, k :| 0 <= i < k < |data| && data[k].Some? && data[i].None?;
      CodedKeys(keys, data);
      IntendedKeys(keys, data, i);
      IntendedKeys(keys, data, k);
    }
  }

  /** One child that does not show, followed by one that does: the second takes the first one's key. */
  lemma KeyIsLost(k1: string, k2: string, d: Data)
    requires k1 != k2
    ensures AsCoded([k1, k2], [None, Some(d)]) == map[k1 := d]
    ensures Intended([k1, k2], [None, Some(d)]) == map[k2 := d]
  {
    var none: Option<Data> := None;
    assert [none, Some(d)][..1] == [none];
    assert [k1, k2][..1] == [k1];
    assert Shown([none]) == 0 by {
      assert [none][..0] == [];
    }
    assert AsCoded([k1, k2], [none]) == map[];
    assert Intended([k1], [none]) == map[];
  }

  ghost predicate UniformData(reading: map<string, Option<Data>>) {
    (forall k :: k in reading ==> reading[k].Some?) || (forall k :: k in reading ==> reading[k].None?)
  }

  /** The keys of a dictionary in some order, each with what its child reads as. */
  ghost predicate Enumerates(reading: map<string, Option<Data>>, keys: seq<string>, data: seq<Option<Data>>) {
    && |data| == |keys| && DistinctKeys(keys) && (forall k :: k in keys <==> k in reading)
    && forall i :: 0 <= i < |keys| ==> keys[i] in reading && data[i] == reading[keys[i]]
  }

  function Shows(reading: map<string, Option<Data>>): map<string, Data> {
    map k | k in reading && reading[k].Some? :: reading[k].value
  }

  lemma IntendedIs(reading: map<string, Option<Data>>, keys: seq<string>, data: seq<Option<Data>>)
    requires Enumerates(reading, keys, data)
    ensures Intended(keys, data) == Shows(reading)
  {
    var intended := Intended(keys, data);
    forall k | k in reading
      ensures k in intended <==> reading[k].Some?
      ensures k in intended ==> intended[k] == reading[k].value
    {
      var i :| 0 <= i < |keys| && keys[i] == k;
      IntendedKeys(keys, data, i);
    }
    forall k | k in intended
      ensures k in reading
    {
      if k !in keys {
        FreshKey(keys, data, k);
      }
    }
  }

  /** Where all children show or none does, each is read under its own key. */
  lemma KeyedIs(reading: map<string, Option<Data>>, keys: seq<string>, data: seq<Option<Data>>)
    requires UniformData(reading) && Enumerates(reading, keys, data)
    ensures AsCoded(keys, data) == Shows(reading)
  {
    CodedIsIntended(keys, data);
    IntendedIs(reading, keys, data);
  }

  lemma {:induction false} SomeOrder(keys: set<string>) returns (order: seq<string>)
    ensures DistinctKeys(order) && forall k :: k in order <==> k in keys
    decreases keys
  {
    if keys == {} {
      order := [];
    } else {
      var k :| k in keys;
      var rest := SomeOrder(keys - {k});
      order := [k] + rest;
      assert forall i :: 0 <= i < |rest| ==> rest[i] in rest;
    }
  }

  lemma OrderFrom(keys: set<string>, k1: string, k2: string) returns (order: seq<string>)
    requires k1 in keys && k2 in keys && k1 != k2
    ensures DistinctKeys(order) && forall k :: k in order <==> k in keys
    ensures |order| >= 2 && order[0] == k1 && order[1] == k2
  {
    var rest := SomeOrder(keys - {k1, k2});
    order := [k1, k2] + rest;
    assert forall i :: 0 <= i < |rest| ==> rest[i] in rest;
  }

  /** Otherwise there is an order in which they are not. */
  lemma OrderThatLoses(reading: map<string, Option<Data>>) returns (keys: seq<string>, data: seq<Option<Data>>)
    requires !UniformData(reading)
    ensures Enumerates(reading, keys, data) && AsCoded(keys, data) != Shows(reading)
  {
    var k1 :| k1 in reading && reading[k1].None?;
    var k2 :| k2 in reading && reading[k2].Some?;
    keys := OrderFrom(reading.Keys, k1, k2);
    assert forall i :: 0 <= i < |keys| ==> keys[i] in keys;
    data := seq(|keys|, i requires 0 <= i < |keys| => reading[keys[i]]);
    assert data[0].None? && data[1].Some?;
    CodedIsIntended(keys, data);
    IntendedIs(reading, keys, data);
  }

  /** A key/value column is read right whatever the order of its keys exactly when its children show all
      or not at all. */
  lemma EveryOrderExactly(reading: map<string, Option<Data>>)
    ensures UniformData(reading) <==>
            forall keys, data {:trigger Enumerates(reading, keys, data)} :: Enumerates(reading, keys, data) ==>
              |data| <= |keys| && AsCoded(keys, data) == Shows(reading)
  {
    if UniformData(reading) {
      forall keys, data | Enumerates(reading, keys, data)
        ensures AsCoded(keys, data) == Shows(reading)
      {
        KeyedIs(reading, keys, data);
      }
    } else {
      var keys, data := OrderThatLoses(reading);
    }
  }

  // ---------- what the loops may return ----------

  /** Rows by index in the order in which they come: of rows with the same index the last one stays. */
  function Collected(s: Schema, db: Db, order: seq<Uuid>, data: seq<Option<Data>>): map<string, Data>
    requires |order| == |data|
  {
    if data == [] then map[]
    else
      var n := |data| - 1;
      var init := Collected(s, db, order[..n], data[..n]);
      if data[n].Some? then init[IndexAt(s, db, order[n]) := data[n].value] else init
  }

  ghost predicate Lines(order: seq<Uuid>, rows: set<Uuid>) {
    && (forall i, k :: 0 <= i < k < |order| ==> order[i] != order[k])
    && (forall v :: v in order <==> v in rows)
  }

  /** Data that the code may read for a row, depending on the order in which dictionaries list their keys. */
  ghost predicate MayRead(s: Schema, db: Db, t: Name, u: Uuid, data: Option<Data>)
    requires ValidSchema(s)
    decreases Level(s, t), 3
  {
    if !Entered(s, db, t, u) then data == None
    else
      var d := if data.Some? then data.value else EMPTY_DATA;
      && (data.Some? ==> d != EMPTY_DATA)
      && d.config == ReadConfig(s.tables[t], db[u].config)
      && d.refs == ReadRefs(s, db, s.tables[t], db[u].refs)
      && (forall c :: c in d.children ==> c in db[u].refs && IsChildColumn(s.tables[t], c) && d.children[c].entries != map[])
      && (forall c :: c in db[u].refs && IsChildColumn(s.tables[t], c) ==>
            MayReadColumn(s, db, t, c, db[u].refs[c], if c in d.children then d.children[c].entries else map[]))
  }

  ghost predicate MayReadColumn(s: Schema, db: Db, t: Name, c: Name, column: RefValue, children: map<string, Data>)
    requires ValidSchema(s) && t in s.tables && IsChildColumn(s.tables[t], c)
    decreases Level(s, t), 0
  {
    assert ValidColumn(s, t, c);
    var ct := s.tables[t].references[c].refTable;
    match column
    case Rows(rows) => MayReadRows(s, db, ct, rows, children)
    case Map(entries) => MayReadEntries(s, db, ct, entries, children)
  }

  ghost predicate MayReadRows(s: Schema, db: Db, t: Name, rows: set<Uuid>, children: map<string, Data>)
    requires ValidSchema(s)
    decreases Level(s, t), 5
  {
    exists order, data {:trigger EachRead(s, db, t, order, data)} ::
      Lines(order, rows) && EachRead(s, db, t, order, data) && children == Collected(s, db, order, data)
  }

  ghost predicate MayReadEntries(s: Schema, db: Db, t: Name, entries: map<string, Uuid>, children: map<string, Data>)
    requires ValidSchema(s)
    decreases Level(s, t), 5
  {
    exists keys, data {:trigger EachKeyRead(s, db, t, entries, keys, data)} ::
      EachKeyRead(s, db, t, entries, keys, data) && children == AsCoded(keys, data)
  }

  ghost predicate EachRead(s: Schema, db: Db, t: Name, order: seq<Uuid>, data: seq<Option<Data>>)
    requires ValidSchema(s)
    decreases Level(s, t), 4
  {
    |order| == |data| && forall i :: 0 <= i < |order| ==> MayRead(s, db, t, order[i], data[i])
  }

  ghost predicate EachKeyRead(s: Schema, db: Db, t: Name, entries: map<string, Uuid>, keys: seq<string>, data: seq<Option<Data>>)
    requires ValidSchema(s)
    decreases Level(s, t), 4
  {
    && |data| == |keys| && DistinctKeys(keys) && (forall k :: k in keys <==> k in entries)
    && forall i :: 0 <= i < |keys| ==> keys[i] in entries && MayRead(s, db, t, entries[keys[i]], data[i])
  }

  /** The tables that the code may read. */
  ghost predicate MayReadRoot(s: Schema, db: Db, root: Root)
    requires ValidSchema(s)
  {
    && (forall t :: t in root ==> IsTopLevel(s, t) && root[t].entries != map[])
    && (forall t {:trigger IsTopLevel(s, t)} :: IsTopLevel(s, t) ==>
          MayReadRows(s, db, t, RowsIn(db, t), if t in root then root[t].entries else map[]))
  }

  /** The configurations that the code may read; there is none where System has nothing to show. */
  ghost predicate MayReadAll(s: Schema, db: Db, config: Option<Config>)
    requires ValidSchema(s)
  {
    match config
    case Some(c) => SYSTEM_TABLE !in c.tables && MayReadRoot(s, db, RootOf(c))
    case None => exists root {:trigger MayReadRoot(s, db, root)} :: MayReadRoot(s, db, root) && SYSTEM_TABLE !in root
  }

  // ---------- replicas that are read without loss ----------

  /** In a list column or table no two rows that show have the same index. */
  ghost predicate DistinctIndexes(s: Schema, db: Db, t: Name, rows: set<Uuid>)
    requires ValidSchema(s)
  {
    forall v, w {:trigger IndexAt(s, db, v), IndexAt(s, db, w)} ::
      && v in rows && w in rows
      && ReadRow(s, db, t, v).Some? && ReadRow(s, db, t, w).Some?
      && IndexAt(s, db, v) == IndexAt(s, db, w)
      ==> v == w
  }

  /** What the children of a key/value column read as. */
  ghost function EntryData(s: Schema, db: Db, t: Name, entries: map<string, Uuid>): map<string, Option<Data>>
    requires ValidSchema(s)
  {
    map k | k in entries :: ReadRow(s, db, t, entries[k])
  }

  /** The rows of a key/value column show all or not at all. */
  ghost predicate AllOrNone(s: Schema, db: Db, t: Name, entries: map<string, Uuid>)
    requires ValidSchema(s)
  {
    UniformData(EntryData(s, db, t, entries))
  }

  /** Whether nothing is lost from a child column; `keyed` says whether key/value columns are looked at too. */
  ghost predicate TidyColumn(s: Schema, db: Db, t: Name, column: RefValue, keyed: bool)
    requires ValidSchema(s)
  {
    match column
    case Rows(rows) => DistinctIndexes(s, db, t, rows)
    case Map(entries) => keyed ==> AllOrNone(s, db, t, entries)
  }

  /** All child columns of a row and below it are tidy, as far as the reader goes. */
  ghost predicate TidyRow(s: Schema, db: Db, t: Name, u: Uuid, keyed: bool)
    requires ValidSchema(s)
    decreases Level(s, t), 1
  {
    Entered(s, db, t, u) ==>
      forall c {:trigger IsChildColumn(s.tables[t], c)} :: IsChildColumn(s.tables[t], c) && c in db[u].refs ==>
        TidyBelow(s, db, t, c, db[u].refs[c], keyed)
  }

  ghost predicate TidyBelow(s: Schema, db: Db, t: Name, c: Name, column: RefValue, keyed: bool)
    requires ValidSchema(s) && t in s.tables && IsChildColumn(s.tables[t], c)
    decreases Level(s, t), 0
  {
    assert ValidColumn(s, t, c);
    var ct := s.tables[t].references[c].refTable;
    TidyColumn(s, db, ct, column, keyed) && forall v {:trigger TidyRow(s, db, ct, v, keyed)} :: v in Targets(column) ==> TidyRow(s, db, ct, v, keyed)
  }

  ghost predicate TidyTable(s: Schema, db: Db, t: Name, keyed: bool)
    requires ValidSchema(s)
  {
    DistinctIndexes(s, db, t, RowsIn(db, t)) && forall u {:trigger TidyRow(s, db, t, u, keyed)} :: u in RowsIn(db, t) ==> TidyRow(s, db, t, u, keyed)
  }

  ghost predicate Tidy(s: Schema, db: Db, keyed: bool)
    requires ValidSchema(s)
  {
    forall t {:trigger TidyTable(s, db, t, keyed)} :: IsTopLevel(s, t) ==> TidyTable(s, db, t, keyed)
  }

  // ---------- tidy replicas are read as they are meant to be ----------

  ghost predicate OneRowEach(data: map<Uuid, (string, Data)>) {
    forall v, w :: v in data && w in data && data[v].0 == data[w].0 ==> v == w
  }

  lemma DataOfIs(data: map<Uuid, (string, Data)>, v: Uuid)
    requires OneRowEach(data) && v in data
    ensures data[v].0 in ByIndex(data) && ByIndex(data)[data[v].0] == data[v].1
  {
    assert data[v].0 in IndexesOf(data);
  }

  lemma ByIndexPut(data: map<Uuid, (string, Data)>, v: Uuid, i: string, d: Data)
    requires v !in data && OneRowEach(data) && OneRowEach(data[v := (i, d)])
    ensures ByIndex(data[v := (i, d)]) == ByIndex(data)[i := d]
  {
    var after, expected := data[v := (i, d)], ByIndex(data)[i := d];
    forall k | k in ByIndex(after)
      ensures k in expected && expected[k] == ByIndex(after)[k]
    {
      var w :| w in after && after[w].0 == k;
      DataOfIs(after, w);
      if w != v {
        DataOfIs(data, w);
        assert v in after && after[v].0 == i;
      }
    }
    forall k | k in expected
      ensures k in ByIndex(after)
    {
      if k == i {
        DataOfIs(after, v);
      } else {
        var w :| w in data && data[w].0 == k;
        assert after[w] == data[w];
        DataOfIs(after, w);
      }
    }
  }

  lemma ListingIsUnique(s: Schema, db: Db, t: Name, all: set<Uuid>, rows: set<Uuid>)
    requires ValidSchema(s) && DistinctIndexes(s, db, t, all) && rows <= all
    ensures OneRowEach(Listing(s, db, t, rows))
  {
    var data := Listing(s, db, t, rows);
    forall v, w | v in data && w in data && data[v].0 == data[w].0
      ensures v == w
    {
      assert IndexAt(s, db, v) == IndexAt(s, db, w);
    }
  }

  lemma ListingStep(s: Schema, db: Db, t: Name, done: set<Uuid>, v: Uuid)
    requires ValidSchema(s) && v !in done
    ensures Listing(s, db, t, done + {v}) ==
            match ReadRow(s, db, t, v)
            case None => Listing(s, db, t, done)
            case Some(d) => Listing(s, db, t, done)[v := (IndexAt(s, db, v), d)]
  {
  }

  /** Adds one row to a list of rows by index. */
  lemma ByIndexAdd(s: Schema, db: Db, t: Name, all: set<Uuid>, done: set<Uuid>, v: Uuid)
    requires ValidSchema(s) && DistinctIndexes(s, db, t, all) && done + {v} <= all && v !in done
    ensures var before := ByIndex(Listing(s, db, t, done)); var after := ByIndex(Listing(s, db, t, done + {v}));
            after == match ReadRow(s, db, t, v) case None => before case Some(d) => before[IndexAt(s, db, v) := d]
  {
    ListingStep(s, db, t, done, v);
    if ReadRow(s, db, t, v).Some? {
      ListingIsUnique(s, db, t, all, done);
      ListingIsUnique(s, db, t, all, done + {v});
      ByIndexPut(Listing(s, db, t, done), v, IndexAt(s, db, v), ReadRow(s, db, t, v).value);
    }
  }

  ghost function Listing(s: Schema, db: Db, t: Name, rows: set<Uuid>): map<Uuid, (string, Data)>
    requires ValidSchema(s)
  {
    map v | v in rows && ReadRow(s, db, t, v).Some? :: (IndexAt(s, db, v), ReadRow(s, db, t, v).value)
  }

  ghost predicate AllRead(s: Schema, db: Db, t: Name, order: seq<Uuid>, data: seq<Option<Data>>)
    requires ValidSchema(s)
  {
    |order| == |data| && forall i :: 0 <= i < |order| ==> data[i] == ReadRow(s, db, t, order[i])
  }

  lemma LinesInit(order: seq<Uuid>, rows: set<Uuid>)
    requires Lines(order, rows) && order != []
    ensures var n := |order| - 1; order[n] in rows && Lines(order[..n], rows - {order[n]})
  {
    var n := |order| - 1;
    assert order == order[..n] + [order[n]];
    assert order[n] in order;
  }

  lemma {:induction false} ListIsRead(s: Schema, db: Db, t: Name, all: set<Uuid>, rows: set<Uuid>, order: seq<Uuid>, data: seq<Option<Data>>)
    requires ValidSchema(s) && DistinctIndexes(s, db, t, all) && rows <= all
    requires Lines(order, rows) && AllRead(s, db, t, order, data)
    ensures Collected(s, db, order, data) == ByIndex(Listing(s, db, t, rows))
    decreases |order|
  {
    if data == [] {
      assert rows == {} by {
        assert forall v :: v in rows ==> v in order;
      }
      assert Listing(s, db, t, rows) == map[];
    } else {
      var n := |order| - 1;
      LinesInit(order, rows);
      var done := rows - {order[n]};
      ListIsRead(s, db, t, all, done, order[..n], data[..n]);
      assert rows == done + {order[n]};
      ByIndexAdd(s, db, t, all, done, order[n]);
    }
  }

  lemma {:induction false} EachIsRead(s: Schema, db: Db, t: Name, rows: set<Uuid>, order: seq<Uuid>, data: seq<Option<Data>>)
    requires ValidSchema(s) && Lines(order, rows) && EachRead(s, db, t, order, data)
    requires forall v {:trigger TidyRow(s, db, t, v, true)} :: v in rows ==> TidyRow(s, db, t, v, true)
    ensures AllRead(s, db, t, order, data)
    decreases Level(s, t), 4
  {
    forall i | 0 <= i < |order|
      ensures data[i] == ReadRow(s, db, t, order[i])
    {
      assert order[i] in order;
      RowIsRead(s, db, t, order[i], data[i]);
    }
  }

  lemma {:induction false} RowsAreRead(s: Schema, db: Db, t: Name, rows: set<Uuid>, children: map<string, Data>)
    requires ValidSchema(s) && MayReadRows(s, db, t, rows, children) && DistinctIndexes(s, db, t, rows)
    requires forall v {:trigger TidyRow(s, db, t, v, true)} :: v in rows ==> TidyRow(s, db, t, v, true)
    ensures children == ByIndex(Listing(s, db, t, rows))
    decreases Level(s, t), 5
  {
    var order, data :| Lines(order, rows) && EachRead(s, db, t, order, data) && children == Collected(s, db, order, data);
    EachIsRead(s, db, t, rows, order, data);
    ListIsRead(s, db, t, rows, rows, order, data);
  }

  lemma {:induction false} EachKeyIsRead(s: Schema, db: Db, t: Name, entries: map<string, Uuid>, keys: seq<string>, data: seq<Option<Data>>)
    requires ValidSchema(s) && EachKeyRead(s, db, t, entries, keys, data)
    requires forall v {:trigger TidyRow(s, db, t, v, true)} :: v in entries.Values ==> TidyRow(s, db, t, v, true)
    ensures Enumerates(EntryData(s, db, t, entries), keys, data)
    decreases Level(s, t), 4
  {
    forall i | 0 <= i < |keys|
      ensures data[i] == ReadRow(s, db, t, entries[keys[i]])
    {
      assert entries[keys[i]] in entries.Values;
      RowIsRead(s, db, t, entries[keys[i]], data[i]);
    }
  }

  lemma ShownEntries(s: Schema, db: Db, t: Name, c: Name, entries: map<string, Uuid>)
    requires ValidSchema(s) && t in s.tables && IsChildColumn(s.tables[t], c)
    ensures ReadChildren(s, db, t, c, Map(entries)) == Shows(EntryData(s, db, s.tables[t].references[c].refTable, entries))
  {
    var shown := Shows(EntryData(s, db, s.tables[t].references[c].refTable, entries));
    assert forall k :: k in ReadChildren(s, db, t, c, Map(entries)) <==> k in shown;
  }

  lemma {:induction false} EntriesAreRead(s: Schema, db: Db, t: Name, entries: map<string, Uuid>, children: map<string, Data>)
    requires ValidSchema(s) && MayReadEntries(s, db, t, entries, children) && AllOrNone(s, db, t, entries)
    requires forall v {:trigger TidyRow(s, db, t, v, true)} :: v in entries.Values ==> TidyRow(s, db, t, v, true)
    ensures children == Shows(EntryData(s, db, t, entries))
    decreases Level(s, t), 5
  {
    var keys, data :| EachKeyRead(s, db, t, entries, keys, data) && children == AsCoded(keys, data);
    EachKeyIsRead(s, db, t, entries, keys, data);
    KeyedIs(EntryData(s, db, t, entries), keys, data);
  }

  lemma {:induction false} ColumnIsReadAs(s: Schema, db: Db, t: Name, c: Name, column: RefValue, children: map<string, Data>)
    requires ValidSchema(s) && t in s.tables && IsChildColumn(s.tables[t], c)
    requires MayReadColumn(s, db, t, c, column, children) && TidyBelow(s, db, t, c, column, true)
    ensures children == ReadChildren(s, db, t, c, column)
    decreases Level(s, t), 0
  {
    assert ValidColumn(s, t, c);
    var ct := s.tables[t].references[c].refTable;
    match column
    case Rows(rows) =>
      RowsAreRead(s, db, ct, rows, children);
    case Map(entries) =>
      EntriesAreRead(s, db, ct, entries, children);
      ShownEntries(s, db, t, c, entries);
  }

  lemma SameChildren(a: map<Name, Children>, b: map<Name, Children>)
    requires forall c {:trigger c in a} {:trigger c in b} :: c in a <==> c in b
    requires forall c {:trigger a[c]} {:trigger b[c]} :: c in a && c in b ==> a[c].entries == b[c].entries
    ensures a == b
  {
    forall c | c in a
      ensures a[c] == b[c]
    {
      assert Children(a[c].entries) == a[c] && Children(b[c].entries) == b[c];
    }
  }

  /** Of a tidy row the code reads what it is meant to, and nothing else. */
  lemma {:induction false} RowIsRead(s: Schema, db: Db, t: Name, u: Uuid, data: Option<Data>)
    requires ValidSchema(s) && MayRead(s, db, t, u, data) && TidyRow(s, db, t, u, true)
    ensures data == ReadRow(s, db, t, u)
    decreases Level(s, t), 3
  {
    if Entered(s, db, t, u) {
      var d := if data.Some? then data.value else EMPTY_DATA;
      var columns := ReadColumns(s, db, t, db[u].refs);
      forall c
        ensures c in d.children <==> c in columns
        ensures c in d.children && c in columns ==> d.children[c].entries == columns[c].entries
      {
        if c in db[u].refs && IsChildColumn(s.tables[t], c) {
          ColumnIsReadAs(s, db, t, c, db[u].refs[c], if c in d.children then d.children[c].entries else map[]);
        }
      }
      SameChildren(d.children, columns);
    }
  }

  lemma RootIsRead(s: Schema, db: Db, root: Root)
    requires ValidSchema(s) && MayReadRoot(s, db, root) && Tidy(s, db, true)
    ensures root == ReadRoot(s, db)
  {
    var back := ReadRoot(s, db);
    forall t
      ensures t in root <==> t in back
      ensures t in root && t in back ==> root[t].entries == back[t].entries
    {
      if IsTopLevel(s, t) {
        assert TidyTable(s, db, t, true);
        RowsAreRead(s, db, t, RowsIn(db, t), if t in root then root[t].entries else map[]);
      }
    }
    SameChildren(root, back);
  }

  /** Of a tidy replica the code reads the configuration that it stands for, and no other. */
  lemma ConfigIsRead(s: Schema, db: Db, config: Option<Config>)
    requires ValidSchema(s) && MayReadAll(s, db, config) && Tidy(s, db, true)
    ensures config == ReadAll(s, db)
  {
    match config
    case Some(c) =>
      RootIsRead(s, db, RootOf(c));
      assert RootOf(c) - {SYSTEM_TABLE} == c.tables;
    case None =>
      var root :| MayReadRoot(s, db, root) && SYSTEM_TABLE !in root;
      RootIsRead(s, db, root);
  }

  // ---------- the loops ----------

  lemma {:induction false} CollectedIndex(s: Schema, db: Db, order: seq<Uuid>, data: seq<Option<Data>>, k: string)
    requires |order| == |data| && k in Collected(s, db, order, data)
    ensures exists v :: v in order && IndexAt(s, db, v) == k
  {
    var n := |data| - 1;
    assert order[n] in order;
    if !(data[n].Some? && IndexAt(s, db, order[n]) == k) {
      CollectedIndex(s, db, order[..n], data[..n], k);
      var v :| v in order[..n] && IndexAt(s, db, v) == k;
      assert v in order;
    }
  }

  /** Reads a list of rows of one table, in any order. */
  method GetRows(s: Schema, db: Db, t: Name, rows: set<Uuid>) returns (children: map<string, Data>)
    requires ValidSchema(s) && Readable(s, db)
    ensures MayReadRows(s, db, t, rows, children)
    decreases Level(s, t), 3
  {
    children := map[];
    ghost var order: seq<Uuid>, data: seq<Option<Data>> := [], [];
    var todo := rows;
    while todo != {}
      invariant todo <= rows && Lines(order, rows - todo)
      invariant EachRead(s, db, t, order, data) && children == Collected(s, db, order, data)
      decreases todo
    {
      var row :| row in todo;
      var rowData := GetRowData(s, db, t, row);
      assert (order + [row])[..|order|] == order && (data + [rowData])[..|data|] == data;
      assert forall i :: 0 <= i < |order| ==> order[i] in order;
      if rowData.Some? {
        children := children[IndexAt(s, db, row) := rowData.value];
      }
      todo, order, data := todo - {row}, order + [row], data + [rowData];
    }
    assert rows - todo == rows;
  }

  /** The entries of a column in the order in which the dictionary lists them. */
  method KeysOf(entries: map<string, Uuid>) returns (keys: seq<string>)
    ensures DistinctKeys(keys)
    ensures forall k :: k in keys <==> k in entries
  {
    keys := [];
    var todo := entries.Keys;
    while todo != {}
      invariant todo <= entries.Keys && DistinctKeys(keys)
      invariant forall k :: k in keys <==> k in entries.Keys - todo
      decreases todo
    {
      var k :| k in todo;
      assert forall i :: 0 <= i < |keys| ==> keys[i] in keys;
      keys, todo := keys + [k], todo - {k};
    }
  }

  /** One more child. */
  lemma CodedStep(keys: seq<string>, data: seq<Option<Data>>, d: Option<Data>)
    requires |data| < |keys|
    ensures Shown(data) <= |data|
    ensures Shown(data + [d]) == Shown(data) + (if d.Some? then 1 else 0)
    ensures AsCoded(keys, data + [d]) == if d.Some? then AsCoded(keys, data)[keys[Shown(data)] := d.value] else AsCoded(keys, data)
  {
    ShownBound(data);
    assert (data + [d])[..|data|] == data;
  }

  /** The children under the first keys, one by one. */
  ghost predicate FirstRead(s: Schema, db: Db, t: Name, entries: map<string, Uuid>, keys: seq<string>, data: seq<Option<Data>>)
    requires ValidSchema(s)
  {
    |data| <= |keys| && forall i :: 0 <= i < |data| ==> keys[i] in entries && MayRead(s, db, t, entries[keys[i]], data[i])
  }

  lemma NextRead(s: Schema, db: Db, t: Name, entries: map<string, Uuid>, keys: seq<string>, data: seq<Option<Data>>, d: Option<Data>)
    requires ValidSchema(s) && FirstRead(s, db, t, entries, keys, data) && |data| < |keys|
    requires keys[|data|] in entries && MayRead(s, db, t, entries[keys[|data|]], d)
    ensures FirstRead(s, db, t, entries, keys, data + [d])
  {
  }

  lemma ReadToTheEnd(s: Schema, db: Db, t: Name, entries: map<string, Uuid>, keys: seq<string>, data: seq<Option<Data>>)
    requires ValidSchema(s) && FirstRead(s, db, t, entries, keys, data) && |data| == |keys|
    requires DistinctKeys(keys) && forall k :: k in keys <==> k in entries
    ensures MayReadEntries(s, db, t, entries, AsCoded(keys, data))
  {
    assert EachKeyRead(s, db, t, entries, keys, data);
  }

  /** Reads a key/value column. */
  method GetKeyed(s: Schema, db: Db, t: Name, entries: map<string, Uuid>) returns (children: map<string, Data>)
    requires ValidSchema(s) && Readable(s, db)
    ensures MayReadEntries(s, db, t, entries, children)
    decreases Level(s, t), 3
  {
    var keys := KeysOf(entries);
    ghost var data: seq<Option<Data>> := [];
    children := map[];
    var i, count := 0, 0;
    while i < |keys|
      invariant 0 <= i == |data| <= |keys|
      invariant count == Shown(data)
      invariant children == AsCoded(keys, data)
      invariant FirstRead(s, db, t, entries, keys, data)
    {
      assert keys[i] in keys;
      var rowData := GetRowData(s, db, t, entries[keys[i]]);
      CodedStep(keys, data, rowData);
      NextRead(s, db, t, entries, keys, data, rowData);
      if rowData.Some? {
        children := children[keys[count] := rowData.value];
        count := count + 1;
      }
      data := data + [rowData];
      i := i + 1;
    }
    ReadToTheEnd(s, db, t, entries, keys, data);
  }

  /** Reads one child column. */
  method GetChildren(s: Schema, db: Db, t: Name, u: Uuid, c: Name) returns (children: map<string, Data>)
    requires ValidSchema(s) && Readable(s, db) && t in s.tables && IsChildColumn(s.tables[t], c)
    requires u in db && db[u].table == t && c in db[u].refs
    ensures MayReadColumn(s, db, t, c, db[u].refs[c], children)
    decreases Level(s, t), 0
  {
    assert ValidColumn(s, t, c);
    var ct := s.tables[t].references[c].refTable;
    match db[u].refs[c]
    case Rows(rows) =>
      children := GetRows(s, db, ct, rows);
    case Map(entries) =>
      children := GetKeyed(s, db, ct, entries);
  }

  /** Reads all child columns that have something to show. */
  method GetColumns(s: Schema, db: Db, t: Name, u: Uuid) returns (columns: map<Name, Children>)
    requires ValidSchema(s) && Readable(s, db) && t in s.tables && u in db && db[u].table == t
    ensures forall c :: c in columns ==> c in db[u].refs && IsChildColumn(s.tables[t], c) && columns[c].entries != map[]
    ensures forall c :: c in db[u].refs && IsChildColumn(s.tables[t], c) ==>
              MayReadColumn(s, db, t, c, db[u].refs[c], if c in columns then columns[c].entries else map[])
    decreases Level(s, t), 1
  {
    columns := map[];
    assert ValidRow(s, db[u]);
    var todo := set c | c in s.tables[t].references && s.tables[t].references[c].relation == Child;
    while todo != {}
      invariant forall c :: c in columns ==>
                  c !in todo && c in db[u].refs && IsChildColumn(s.tables[t], c) && columns[c].entries != map[]
      invariant forall c :: c in db[u].refs && IsChildColumn(s.tables[t], c) && c !in todo ==>
                  MayReadColumn(s, db, t, c, db[u].refs[c], if c in columns then columns[c].entries else map[])
      invariant forall c :: c in todo ==> c in db[u].refs && IsChildColumn(s.tables[t], c)
      decreases todo
    {
      var c :| c in todo;
      var children := GetChildren(s, db, t, u, c);
      if children != map[] {
        columns := columns[c := Children(children)];
      }
      todo := todo - {c};
    }
  }

  method GetReference(s: Schema, db: Db, shape: Shape, v: RefValue) returns (data: RefData)
    requires shape == One ==> |Targets(v)| <= 1
    ensures data == ReadRef(s, db, shape, v)
  {
    match v
    case Map(entries) =>
      data := IndexMap(map k | k in entries :: IndexAt(s, db, entries[k]));
    case Rows(rows) =>
      if shape == One && rows != {} {
        var row :| row in rows;
        assert rows == {row} by {
          assert |rows - {row}| == 0;
        }
        data := Index(IndexAt(s, db, row));
      } else {
        data := IndexSet(set row | row in rows :: IndexAt(s, db, row));
      }
  }

  /** Reads the reference columns that are configuration and not empty. */
  method GetReferences(s: Schema, db: Db, t: Name, u: Uuid) returns (refs: map<Name, RefData>)
    requires ValidSchema(s) && Readable(s, db) && t in s.tables && u in db && db[u].table == t
    ensures refs == ReadRefs(s, db, s.tables[t], db[u].refs)
    ensures forall c :: c in refs <==> c in db[u].refs && c in s.tables[t].references && s.tables[t].references[c].relation == Reference
                                       && s.tables[t].references[c].isConfig && Targets(db[u].refs[c]) != {}
  {
    refs := map[];
    assert ValidRow(s, db[u]);
    var ts, all, todo := s.tables[t], db[u].refs, db[u].refs.Keys;
    while todo != {}
      invariant todo <= all.Keys
      invariant forall c :: c in refs <==> c in all && c !in todo && IsConfigReference(ts, c) && Targets(all[c]) != {}
      invariant forall c :: c in refs ==> refs[c] == ReadRef(s, db, ts.references[c].shape, all[c])
      decreases todo
    {
      var c :| c in todo;
      if IsConfigReference(ts, c) && Targets(all[c]) != {} {
        var data := GetReference(s, db, ts.references[c].shape, all[c]);
        refs := refs[c := data];
      }
      todo := todo - {c};
    }
  }

  /** What there is to show of the row itself. */
  predicate HoldsValue(ts: TableSchema, row: Row, c: Name) {
    c in ts.config && c in row.config && row.config[c] !in [NoneValue, Text(""), Items([]), Entries(map[])]
  }

  /** VLANs in internal use are left out, and so are rows of tables that hold no configuration; of all others
      the configuration columns that are not empty are shown, and the row itself if there is anything to show. */
  ghost predicate ShowsExactly(ts: TableSchema, row: Row, data: Option<Data>) {
    if (row.table == "VLAN" && row.internal) || (ts.config == map[] && forall c :: c in ts.references ==> !ts.references[c].isConfig)
    then data == None
    else
      match data
      case None => forall c :: !HoldsValue(ts, row, c)
      case Some(d) => forall c :: (c in d.config <==> HoldsValue(ts, row, c)) && (c in d.config ==> d.config[c] == row.config[c])
  }

  /** Reads one row with everything below it; nothing comes of a row without content. */
  method GetRowData(s: Schema, db: Db, t: Name, u: Uuid) returns (data: Option<Data>)
    requires ValidSchema(s) && Readable(s, db)
    ensures MayRead(s, db, t, u, data)
    ensures u in db && db[u].table == t && t in s.tables ==> ShowsExactly(s.tables[t], db[u], data)
    decreases Level(s, t), 2
  {
    if u !in db || db[u].table != t || t !in s.tables || Hidden(db[u]) || !HasConfigCategory(s.tables[t]) {
      return None;
    }
    var columns := GetColumns(s, db, t, u);
    var refs := GetReferences(s, db, t, u);
    var config := ReadConfig(s.tables[t], db[u].config);
    var d := Data(config, refs, columns);
    assert forall c :: c in config <==> HoldsValue(s.tables[t], db[u], c);
    data := if d == EMPTY_DATA then None else Some(d);
  }

  /** Reads all top-level tables. */
  method GetRoot(s: Schema, db: Db) returns (root: Root)
    requires ValidSchema(s) && Readable(s, db)
    ensures MayReadRoot(s, db, root)
  {
    root := map[];
    var todo := s.tables.Keys;
    while todo != {}
      invariant todo <= s.tables.Keys
      invariant forall t :: t in root ==> t !in todo && IsTopLevel(s, t) && root[t].entries != map[]
      invariant forall t {:trigger IsTopLevel(s, t)} :: IsTopLevel(s, t) && t !in todo ==>
                  MayReadRows(s, db, t, RowsIn(db, t), if t in root then root[t].entries else map[])
      decreases todo
    {
      var t :| t in todo;
      if IsTopLevel(s, t) {
        var rows := set u | u in db && db[u].table == t;
        assert rows == RowsIn(db, t);
        var data := GetRows(s, db, t, rows);
        if data != map[] {
          root := root[t := Children(data)];
        }
      }
      todo := todo - {t};
    }
  }

  /** The System table has no index, so its rows are read without one. */
  lemma SystemKey(s: Schema, db: Db, root: Root, k: string)
    requires ValidSchema(s) && MayReadRoot(s, db, root) && SYSTEM_TABLE in root && k in root[SYSTEM_TABLE].entries
    ensures k == ""
  {
    assert ValidTable(s, SYSTEM_TABLE);
    assert IsTopLevel(s, SYSTEM_TABLE);
    var rows, entries := RowsIn(db, SYSTEM_TABLE), root[SYSTEM_TABLE].entries;
    assert MayReadRows(s, db, SYSTEM_TABLE, rows, entries);
    var order, data :| Lines(order, rows) && EachRead(s, db, SYSTEM_TABLE, order, data) && entries == Collected(s, db, order, data);
    CollectedIndex(s, db, order, data, k);
    var v :| v in order && IndexAt(s, db, v) == k;
  }

  /** Reads the whole configuration; the only entry of the System table loses its key. */
  method Read(s: Schema, db: Db) returns (config: Option<Config>)
    requires ValidSchema(s) && Readable(s, db)
    ensures MayReadAll(s, db, config)
    ensures Tidy(s, db, true) ==> config == ReadAll(s, db)
  {
    var root := GetRoot(s, db);
    if SYSTEM_TABLE !in root || root[SYSTEM_TABLE].entries == map[] {
      config := None;
    } else {
      var key :| key in root[SYSTEM_TABLE].entries;
      forall k | k in root[SYSTEM_TABLE].entries
        ensures k == ""
      {
        SystemKey(s, db, root, k);
      }
      RootRoundTrip(root);
      config := Some(Config(root[SYSTEM_TABLE].entries[key], root - {SYSTEM_TABLE}));
    }
    if Tidy(s, db, true) {
      ConfigIsRead(s, db, config);
    }
  }
}
