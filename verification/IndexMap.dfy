/** The index map that the IDL keeps beside the rows of a table (ops/opsidl.py). */
module IndexMap {
  import opened Options

  type Uuid = string
  type Name = string

  /** A column value: text as str() gives it, or a link to another row. */
  datatype Cell = Plain(text: string) | Link(target: Uuid)
  type Record = map<Name, Cell>

  /** Updates from the server.  `live` are the rows that links can lead to once the row is gone. */
  datatype Update =
    | Insert(uuid: Uuid, record: Record)
    | Modify(uuid: Uuid, record: Record)
    | Delete(uuid: Uuid, live: set<Uuid>)
    | Clear

  datatype Table = Table(rows: map<Uuid, Record>, indexMap: map<seq<string>, Uuid>)

  const EMPTY_TABLE: Table := Table(map[], map[])
  const NO_ROW: string := "None"

  /** Every index column has a value, and no UUID reads like an absent row. */
  ghost predicate ValidRecord(indexes: seq<Name>, record: Record) {
    forall i {:trigger indexes[i]} :: 0 <= i < |indexes| ==>
      indexes[i] in record && (record[indexes[i]].Link? ==> record[indexes[i]].target != NO_ROW)
  }

  /** The same columns are links in all rows. */
  ghost predicate SameKinds(indexes: seq<Name>, links: set<Name>, record: Record) {
    forall i {:trigger indexes[i]} :: 0 <= i < |indexes| && indexes[i] in record ==>
      (record[indexes[i]].Link? <==> indexes[i] in links)
  }

  /** The text under which a value is indexed: UUIDs come from the update itself. */
  function CreateText(c: Cell): string {
    match c
    case Plain(text) => text
    case Link(target) => target
  }

  /** The text by which a value is looked for on deletion: UUIDs come from the linked row. */
  function DeleteText(c: Cell, live: set<Uuid>): string {
    match c
    case Plain(text) => text
    case Link(target) => if target in live then target else NO_ROW
  }

  function CreateKey(indexes: seq<Name>, record: Record): (key: seq<string>)
    requires ValidRecord(indexes, record)
  {
    seq(|indexes|, i requires 0 <= i < |indexes| => CreateText(record[indexes[i]]))
  }

  function DeleteKey(indexes: seq<Name>, record: Record, live: set<Uuid>): (key: seq<string>)
    requires ValidRecord(indexes, record)
  {
    seq(|indexes|, i requires 0 <= i < |indexes| => DeleteText(record[indexes[i]], live))
  }

  /** The links in the index columns lead somewhere. */
  predicate LinksLive(indexes: seq<Name>, record: Record, live: set<Uuid>)
    requires ValidRecord(indexes, record)
  {
    forall i :: 0 <= i < |indexes| && record[indexes[i]].Link? ==> record[indexes[i]].target in live
  }

  /** The keys, column by column: texts as they are and the UUIDs of links, on deletion "None" for a link
      that leads nowhere any more. */
  lemma KeysExactly(indexes: seq<Name>, record: Record, live: set<Uuid>, i: nat)
    requires ValidRecord(indexes, record) && i < |indexes|
    ensures |CreateKey(indexes, record)| == |DeleteKey(indexes, record, live)| == |indexes|
    ensures match record[indexes[i]]
            case Plain(text) => CreateKey(indexes, record)[i] == text && DeleteKey(indexes, record, live)[i] == text
            case Link(target) =>
              && CreateKey(indexes, record)[i] == target
              && DeleteKey(indexes, record, live)[i] == if target in live then target else "None"
  {
  }

  // ---------- one update ----------

  function Merged(table: Table, u: Uuid, record: Record): Record {
    if u in table.rows then table.rows[u] + record else record
  }

  function Applied(indexes: seq<Name>, table: Table, update: Update): Table
    requires ValidTable(indexes, table) && Suits(indexes, update)
  {
    match update
    case Clear => EMPTY_TABLE
    case Insert(u, record) =>
      MergedIsValid(indexes, table, u, record);
      var row := Merged(table, u, record);
      Table(table.rows[u := row], if indexes == [] then table.indexMap else table.indexMap[CreateKey(indexes, row) := u])
    case Modify(u, record) =>
      MergedIsValid(indexes, table, u, record);
      var row := Merged(table, u, record);
      Table(table.rows[u := row],
            if u in table.rows || indexes == [] then table.indexMap else table.indexMap[CreateKey(indexes, row) := u])
    case Delete(u, live) =>
      if u !in table.rows then table
      else
        Table(table.rows - {u},
              if indexes == [] then table.indexMap else table.indexMap - {DeleteKey(indexes, table.rows[u], live)})
  }

  ghost predicate ValidTable(indexes: seq<Name>, table: Table) {
    forall u {:trigger table.rows[u]} :: u in table.rows ==> ValidRecord(indexes, table.rows[u])
  }

  ghost predicate Suits(indexes: seq<Name>, update: Update) {
    match update
    case Insert(_, record) => ValidRecord(indexes, record)
    case Modify(_, record) => ValidRecord(indexes, record)
    case _ => true
  }

  lemma MergedIsValid(indexes: seq<Name>, table: Table, u: Uuid, record: Record)
    requires ValidTable(indexes, table) && ValidRecord(indexes, record)
    ensures ValidRecord(indexes, Merged(table, u, record))
    ensures CreateKey(indexes, Merged(table, u, record)) == CreateKey(indexes, record)
  {
  }

  // ---------- what the map is for ----------

  ghost predicate IndexesOf(indexes: seq<Name>, table: Table, u: Uuid, key: seq<string>)
    requires ValidTable(indexes, table)
  {
    u in table.rows && CreateKey(indexes, table.rows[u]) == key
  }

  /** The map leads from the key of every row to the row, and holds nothing else. */
  ghost predicate Exact(indexes: seq<Name>, table: Table)
    requires ValidTable(indexes, table)
  {
    forall key, u {:trigger IndexesOf(indexes, table, u, key)} ::
      key in table.indexMap && table.indexMap[key] == u <==> IndexesOf(indexes, table, u, key)
  }

  /** The updates that keep the map exact: new keys are free, keys of rows do not change, and a row is
      deleted before the rows that its index columns link to. */
  ghost predicate Harmless(indexes: seq<Name>, table: Table, update: Update)
    requires ValidTable(indexes, table) && Suits(indexes, update)
  {
    match update
    case Clear => true
    case Insert(u, record) =>
      if u in table.rows then CreateKey(indexes, record) == CreateKey(indexes, table.rows[u])
      else CreateKey(indexes, record) !in table.indexMap
    case Modify(u, record) =>
      if u in table.rows then CreateKey(indexes, record) == CreateKey(indexes, table.rows[u])
      else CreateKey(indexes, record) !in table.indexMap
    case Delete(u, live) => u in table.rows ==> LinksLive(indexes, table.rows[u], live)
  }

  ghost predicate UniformTable(indexes: seq<Name>, links: set<Name>, table: Table) {
    forall u {:trigger table.rows[u]} :: u in table.rows ==> SameKinds(indexes, links, table.rows[u])
  }

  ghost predicate UniformUpdate(indexes: seq<Name>, links: set<Name>, update: Update) {
    match update
    case Insert(_, record) => SameKinds(indexes, links, record)
    case Modify(_, record) => SameKinds(indexes, links, record)
    case _ => true
  }

  lemma KeyOfLive(indexes: seq<Name>, record: Record, live: set<Uuid>)
    requires ValidRecord(indexes, record)
    ensures DeleteKey(indexes, record, live) == CreateKey(indexes, record) <==> LinksLive(indexes, record, live)
  {
    var a, b := DeleteKey(indexes, record, live), CreateKey(indexes, record);
    if LinksLive(indexes, record, live) {
      assert a == b;
    } else {
      var i :| 0 <= i < |indexes| && record[indexes[i]].Link? && record[indexes[i]].target !in live;
      assert a[i] == NO_ROW != b[i];
    }
  }

  /** A key with an absent row in it belongs to no row. */
  lemma DeadKeyIsFree(indexes: seq<Name>, links: set<Name>, table: Table, u: Uuid, live: set<Uuid>)
    requires ValidTable(indexes, table) && UniformTable(indexes, links, table) && Exact(indexes, table)
    requires u in table.rows && !LinksLive(indexes, table.rows[u], live)
    ensures DeleteKey(indexes, table.rows[u], live) !in table.indexMap
  {
    var key := DeleteKey(indexes, table.rows[u], live);
    var i :| 0 <= i < |indexes| && table.rows[u][indexes[i]].Link? && table.rows[u][indexes[i]].target !in live;
    assert key[i] == NO_ROW;
    forall v | v in table.rows
      ensures !IndexesOf(indexes, table, v, key)
    {
      assert CreateKey(indexes, table.rows[v])[i] == CreateText(table.rows[v][indexes[i]]);
    }
    assert key in table.indexMap ==> IndexesOf(indexes, table, table.indexMap[key], key);
  }

  /** An update keeps the map exact if and only if it is harmless. */
  lemma UpdateKeepsExact(indexes: seq<Name>, links: set<Name>, table: Table, update: Update)
    requires indexes != [] && ValidTable(indexes, table) && UniformTable(indexes, links, table) && Exact(indexes, table)
    requires Suits(indexes, update) && UniformUpdate(indexes, links, update)
    ensures ValidTable(indexes, Applied(indexes, table, update)) && UniformTable(indexes, links, Applied(indexes, table, update))
    ensures Exact(indexes, Applied(indexes, table, update)) <==> Harmless(indexes, table, update)
  {
    var after := Applied(indexes, table, update);
    match update
    case Clear =>
    case Insert(u, record) =>
      MergedIsValid(indexes, table, u, record);
      WriteKeepsExact(indexes, table, u, record, after);
    case Modify(u, record) =>
      MergedIsValid(indexes, table, u, record);
      if u in table.rows {
        ModifyKeepsExact(indexes, table, u, record, after);
      } else {
        WriteKeepsExact(indexes, table, u, record, after);
      }
    case Delete(u, live) =>
      if u in table.rows {
        DeleteKeepsExact(indexes, links, table, u, live, after);
      }
  }

  lemma WriteKeepsExact(indexes: seq<Name>, table: Table, u: Uuid, record: Record, after: Table)
    requires ValidTable(indexes, table) && Exact(indexes, table) && ValidRecord(indexes, record)
    requires after == Table(table.rows[u := Merged(table, u, record)], table.indexMap[CreateKey(indexes, record) := u])
    ensures ValidTable(indexes, after)
    ensures Exact(indexes, after) <==> if u in table.rows then CreateKey(indexes, record) == CreateKey(indexes, table.rows[u])
                                       else CreateKey(indexes, record) !in table.indexMap
  {
    MergedIsValid(indexes, table, u, record);
    var key := CreateKey(indexes, record);
    assert IndexesOf(indexes, after, u, key);
    if u in table.rows && key != CreateKey(indexes, table.rows[u]) {
      var stale := CreateKey(indexes, table.rows[u]);
      assert IndexesOf(indexes, table, u, stale);
      assert after.indexMap[stale] == u && !IndexesOf(indexes, after, u, stale);
    } else if u !in table.rows && key in table.indexMap {
      var v := table.indexMap[key];
      assert IndexesOf(indexes, table, v, key);
      assert IndexesOf(indexes, after, v, key);
    } else {
      forall k, v
        ensures k in after.indexMap && after.indexMap[k] == v <==> IndexesOf(indexes, after, v, k)
      {
        assert k in table.indexMap && table.indexMap[k] == v <==> IndexesOf(indexes, table, v, k);
        assert IndexesOf(indexes, after, v, k) <==> if v == u then k == key else IndexesOf(indexes, table, v, k);
        assert u in table.rows ==> IndexesOf(indexes, table, u, key);
      }
    }
  }

  lemma ModifyKeepsExact(indexes: seq<Name>, table: Table, u: Uuid, record: Record, after: Table)
    requires ValidTable(indexes, table) && Exact(indexes, table) && ValidRecord(indexes, record) && u in table.rows
    requires after == Table(table.rows[u := Merged(table, u, record)], table.indexMap)
    ensures ValidTable(indexes, after)
    ensures Exact(indexes, after) <==> CreateKey(indexes, record) == CreateKey(indexes, table.rows[u])
  {
    MergedIsValid(indexes, table, u, record);
    var key, was := CreateKey(indexes, record), CreateKey(indexes, table.rows[u]);
    assert IndexesOf(indexes, table, u, was);
    if key != was {
      assert !IndexesOf(indexes, after, u, was);
    } else {
      forall k, v
        ensures k in after.indexMap && after.indexMap[k] == v <==> IndexesOf(indexes, after, v, k)
      {
        assert IndexesOf(indexes, table, v, k) <==> IndexesOf(indexes, after, v, k);
      }
    }
  }

  lemma DeleteKeepsExact(indexes: seq<Name>, links: set<Name>, table: Table, u: Uuid, live: set<Uuid>, after: Table)
    requires ValidTable(indexes, table) && UniformTable(indexes, links, table) && Exact(indexes, table) && u in table.rows
    requires after == Table(table.rows - {u}, table.indexMap - {DeleteKey(indexes, table.rows[u], live)})
    ensures ValidTable(indexes, after)
    ensures Exact(indexes, after) <==> LinksLive(indexes, table.rows[u], live)
  {
    KeyOfLive(indexes, table.rows[u], live);
    var key := CreateKey(indexes, table.rows[u]);
    assert IndexesOf(indexes, table, u, key);
    if LinksLive(indexes, table.rows[u], live) {
      forall k, v
        ensures k in after.indexMap && after.indexMap[k] == v <==> IndexesOf(indexes, after, v, k)
      {
        assert IndexesOf(indexes, table, v, k) && v != u ==> IndexesOf(indexes, after, v, k);
      }
    } else {
      DeadKeyIsFree(indexes, links, table, u, live);
      assert after.indexMap[key] == u && !IndexesOf(indexes, after, u, key);
    }
  }

  /** A row that comes with the key of one that is about to go loses its entry when that one goes; the other
      way round nothing is lost. */
  lemma ReplacedTooEarly(indexes: seq<Name>, links: set<Name>, table: Table, gone: Uuid, u: Uuid, record: Record, live: set<Uuid>)
    requires indexes != [] && ValidTable(indexes, table) && UniformTable(indexes, links, table) && Exact(indexes, table)
    requires ValidRecord(indexes, record) && SameKinds(indexes, links, record)
    requires gone in table.rows && u !in table.rows && LinksLive(indexes, table.rows[gone], live)
    requires CreateKey(indexes, record) == CreateKey(indexes, table.rows[gone])
    ensures var inserted := Applied(indexes, table, Insert(u, record));
            && ValidTable(indexes, inserted)
            && var after := Applied(indexes, inserted, Delete(gone, live));
            u in after.rows && CreateKey(indexes, record) !in after.indexMap
    ensures var deleted := Applied(indexes, table, Delete(gone, live));
            && ValidTable(indexes, deleted)
            && var after := Applied(indexes, deleted, Insert(u, record));
            ValidTable(indexes, after) && Exact(indexes, after)
  {
    var key := CreateKey(indexes, record);
    KeyOfLive(indexes, table.rows[gone], live);
    MergedIsValid(indexes, table, u, record);
    assert IndexesOf(indexes, table, gone, key);
    UpdateKeepsExact(indexes, links, table, Delete(gone, live));
    UpdateKeepsExact(indexes, links, Applied(indexes, table, Delete(gone, live)), Insert(u, record));
  }

  // ---------- whole runs ----------

  function Run(indexes: seq<Name>, updates: seq<Update>): (table: Table)
    requires forall i {:trigger updates[i]} :: 0 <= i < |updates| ==> Suits(indexes, updates[i])
    ensures ValidTable(indexes, table)
  {
    if updates == [] then EMPTY_TABLE
    else
      var n := |updates| - 1;
      var before := Run(indexes, updates[..n]);
      AppliedIsValid(indexes, before, updates[n]);
      Applied(indexes, before, updates[n])
  }

  lemma AppliedIsValid(indexes: seq<Name>, table: Table, update: Update)
    requires ValidTable(indexes, table) && Suits(indexes, update)
    ensures ValidTable(indexes, Applied(indexes, table, update))
  {
    match update
    case Insert(u, record) => MergedIsValid(indexes, table, u, record);
    case Modify(u, record) => MergedIsValid(indexes, table, u, record);
    case _ =>
  }

  ghost predicate ValidRun(indexes: seq<Name>, links: set<Name>, updates: seq<Update>) {
    forall i {:trigger updates[i]} :: 0 <= i < |updates| ==> Suits(indexes, updates[i]) && UniformUpdate(indexes, links, updates[i])
  }

  ghost predicate ExactAt(indexes: seq<Name>, updates: seq<Update>, i: nat)
    requires i <= |updates| && forall k {:trigger updates[k]} :: 0 <= k < |updates| ==> Suits(indexes, updates[k])
  {
    Exact(indexes, Run(indexes, updates[..i]))
  }

  ghost predicate HarmlessAt(indexes: seq<Name>, updates: seq<Update>, i: nat)
    requires i < |updates| && forall k {:trigger updates[k]} :: 0 <= k < |updates| ==> Suits(indexes, updates[k])
  {
    Harmless(indexes, Run(indexes, updates[..i]), updates[i])
  }

  ghost predicate ExactUpTo(indexes: seq<Name>, updates: seq<Update>, n: nat)
    requires n <= |updates| && forall k {:trigger updates[k]} :: 0 <= k < |updates| ==> Suits(indexes, updates[k])
  {
    forall i {:trigger ExactAt(indexes, updates, i)} :: 0 <= i <= n ==> ExactAt(indexes, updates, i)
  }

  ghost predicate HarmlessUpTo(indexes: seq<Name>, updates: seq<Update>, n: nat)
    requires n <= |updates| && forall k {:trigger updates[k]} :: 0 <= k < |updates| ==> Suits(indexes, updates[k])
  {
    forall i {:trigger HarmlessAt(indexes, updates, i)} :: 0 <= i < n ==> HarmlessAt(indexes, updates, i)
  }

  /** Along any run the map stays exact up to step n exactly when the first n updates are harmless. */
  lemma {:induction false} RunStaysExact(indexes: seq<Name>, links: set<Name>, updates: seq<Update>, n: nat)
    requires indexes != [] && ValidRun(indexes, links, updates) && n <= |updates|
    ensures ExactUpTo(indexes, updates, n) <==> HarmlessUpTo(indexes, updates, n)
    ensures HarmlessUpTo(indexes, updates, n) ==> UniformTable(indexes, links, Run(indexes, updates[..n]))
  {
    if n == 0 {
      assert updates[..0] == [];
      assert ExactAt(indexes, updates, 0);
    } else {
      RunStaysExact(indexes, links, updates, n - 1);
      assert updates[..n][..n - 1] == updates[..n - 1];
      var before := Run(indexes, updates[..n - 1]);
      if HarmlessUpTo(indexes, updates, n - 1) {
        assert ExactAt(indexes, updates, n - 1);
        UpdateKeepsExact(indexes, links, before, updates[n - 1]);
        assert Run(indexes, updates[..n]) == Applied(indexes, before, updates[n - 1]);
        assert HarmlessAt(indexes, updates, n - 1) <==> ExactAt(indexes, updates, n);
      } else {
        assert !ExactUpTo(indexes, updates, n - 1);
      }
    }
  }

  // ---------- the table ----------

  class IndexedTable {
    const indexes: seq<Name>
    var rows: map<Uuid, Record>
    var indexMap: map<seq<string>, Uuid>

    constructor (indexes: seq<Name>)
      ensures this.indexes == indexes && State() == EMPTY_TABLE
    {
      this.indexes, rows, indexMap := indexes, map[], map[];
    }

    function State(): Table
      reads this
    {
      Table(rows, indexMap)
    }

    method ClearAll()
      modifies this
      ensures State() == EMPTY_TABLE
    {
      rows, indexMap := map[], map[];
    }

    method RowKey(record: Record) returns (key: seq<string>)
      requires ValidRecord(indexes, record)
      ensures key == CreateKey(indexes, record)
    {
      key := [];
      for i := 0 to |indexes|
        invariant key == CreateKey(indexes, record)[..i]
      {
        key := key + [CreateText(record[indexes[i]])];
      }
    }

    method RowKeyNow(record: Record, live: set<Uuid>) returns (key: seq<string>)
      requires ValidRecord(indexes, record)
      ensures key == DeleteKey(indexes, record, live)
    {
      key := [];
      for i := 0 to |indexes|
        invariant key == DeleteKey(indexes, record, live)[..i]
      {
        key := key + [DeleteText(record[indexes[i]], live)];
      }
    }

    /** Follows one update of the replica. */
    method ProcessUpdate(update: Update)
      requires ValidTable(indexes, State()) && Suits(indexes, update)
      modifies this
      ensures State() == Applied(indexes, old(State()), update)
      ensures ValidTable(indexes, State())
    {
      AppliedIsValid(indexes, State(), update);
      match update
      case Clear =>
        ClearAll();
      case Delete(u, live) =>
        if u in rows {
          var record := rows[u];
          rows := rows - {u};
          if indexes != [] {
            var key := RowKeyNow(record, live);
            if key in indexMap {
              indexMap := indexMap - {key};
            }
          }
        }
      case Insert(u, record) =>
        MergedIsValid(indexes, State(), u, record);
        rows := rows[u := if u in rows then rows[u] + record else record];
        if indexes != [] {
          var key := RowKey(rows[u]);
          indexMap := indexMap[key := u];
        }
      case Modify(u, record) =>
        MergedIsValid(indexes, State(), u, record);
        var known := u in rows;
        rows := rows[u := if u in rows then rows[u] + record else record];
        if !known && indexes != [] {
          var key := RowKey(rows[u]);
          indexMap := indexMap[key := u];
        }
    }

    /** The row with this index, by the map. */
    method IndexToRowLookup(index: seq<string>) returns (row: Option<Uuid>)
      requires ValidTable(indexes, State()) && Exact(indexes, State())
      ensures row.Some? ==> IndexesOf(indexes, State(), row.value, index)
      ensures row.None? ==> forall u :: !IndexesOf(indexes, State(), u, index)
    {
      row := if index in indexMap then Some(indexMap[index]) else None;
      assert forall u {:trigger IndexesOf(indexes, State(), u, index)} ::
          IndexesOf(indexes, State(), u, index) <==> index in State().indexMap && State().indexMap[index] == u;
    }

    /** The row with this index, by going through the table (opsrest/utils/utils.py, index_to_row). */
    method Scan(index: seq<string>) returns (row: Option<Uuid>)
      requires ValidTable(indexes, State())
      ensures row.Some? ==> IndexesOf(indexes, State(), row.value, index)
      ensures row.None? ==> forall u :: !IndexesOf(indexes, State(), u, index)
    {
      if |index| != |indexes| {
        return None;
      }
      var todo := rows.Keys;
      while todo != {}
        invariant todo <= rows.Keys
        invariant forall u :: u in rows.Keys - todo ==> !IndexesOf(indexes, State(), u, index)
        decreases todo
      {
        var u :| u in todo;
        var i := 0;
        while i < |indexes| && CreateText(rows[u][indexes[i]]) == index[i]
          invariant 0 <= i <= |indexes|
          invariant forall k :: 0 <= k < i ==> CreateText(rows[u][indexes[k]]) == index[k]
        {
          i := i + 1;
        }
        if i == |indexes| {
          assert CreateKey(indexes, rows[u]) == index;
          return Some(u);
        }
        assert CreateKey(indexes, rows[u])[i] != index[i];
        todo := todo - {u};
      }
      row := None;
    }

    /** On an exact map both ways find the same row. */
    method FindBothWays(index: seq<string>) returns (fast: Option<Uuid>, slow: Option<Uuid>)
      requires ValidTable(indexes, State()) && Exact(indexes, State())
      ensures fast == slow
    {
      fast := IndexToRowLookup(index);
      slow := Scan(index);
      if fast.Some? && slow.Some? {
        assert IndexesOf(indexes, State(), fast.value, index) && IndexesOf(indexes, State(), slow.value, index);
        assert State().indexMap[index] == fast.value == slow.value;
      }
    }
  }
}
