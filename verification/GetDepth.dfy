/** Reading a row together with what it refers to, down to a given depth (opsrest/get.py).  References
    may well lead round in circles. */
module GetDepth {
  import opened Options

  type Uuid = nat
  type Name = string

  datatype Column = Column(name: Name, refTable: Name, targets: seq<Uuid>)

  /** The reference columns of a row; `parent` is the table that contains it. */
  datatype RowRefs = RowRefs(parent: Option<Name>, columns: seq<Column>)

  type Graph = map<Uuid, RowRefs>

  /** A row as it is returned: under each column the rows it refers to, or only where they are. */
  datatype Json = Row(uuid: Uuid, columns: seq<Entry>)
  datatype Entry = Uris(name: Name, uris: seq<Uuid>) | Rows(name: Name, rows: seq<Json>)

  /** References lead to rows of the replica. */
  ghost predicate Closed(g: Graph) {
    forall u, i, k {:trigger g[u].columns[i].targets[k]} ::
      u in g && 0 <= i < |g[u].columns| && 0 <= k < |g[u].columns[i].targets| ==> g[u].columns[i].targets[k] in g
  }

  /** Empty columns and the column that leads back to the parent are left out. */
  predicate IsShown(row: RowRefs, c: Column) {
    row.parent != Some(c.refTable) && c.targets != []
  }

  function ShownFrom(row: RowRefs, columns: seq<Column>): seq<Column> {
    if columns == [] then []
    else ShownFrom(row, columns[..|columns| - 1])
         + if IsShown(row, columns[|columns| - 1]) then [columns[|columns| - 1]] else []
  }

  function Shown(row: RowRefs): seq<Column> {
    ShownFrom(row, row.columns)
  }

  lemma {:induction false} ShownAre(row: RowRefs, columns: seq<Column>, i: nat)
    requires i < |ShownFrom(row, columns)|
    ensures ShownFrom(row, columns)[i] in columns && ShownFrom(row, columns)[i].targets != []
  {
    var n := |columns| - 1;
    if i < |ShownFrom(row, columns[..n])| {
      ShownAre(row, columns[..n], i);
      assert ShownFrom(row, columns)[i] in columns[..n];
    } else {
      assert columns[n] in columns;
    }
  }

  /** The columns that are shown, in order: those that are not empty and do not lead back to the parent. */
  lemma {:induction false} ShownExactly(row: RowRefs, columns: seq<Column>) returns (at: seq<nat>)
    ensures |at| == |ShownFrom(row, columns)| && forall i :: 0 <= i < |at| ==> at[i] < |columns| && columns[at[i]] == ShownFrom(row, columns)[i]
    ensures forall i, k :: 0 <= i < k < |at| ==> at[i] < at[k]
    ensures forall m: nat :: m < |columns| ==> (m in at <==> columns[m].targets != [] && row.parent != Some(columns[m].refTable))
  {
    at := [];
    if columns != [] {
      var n := |columns| - 1;
      at := ShownExactly(row, columns[..n]);
      if IsShown(row, columns[n]) {
        at := at + [n];
      }
    }
  }

  lemma ShownTargets(g: Graph, u: Uuid, i: nat, k: nat)
    requires Closed(g) && u in g && i < |Shown(g[u])| && k < |Shown(g[u])[i].targets|
    ensures Shown(g[u])[i].targets[k] in g
  {
    ShownAre(g[u], g[u].columns, i);
    var m :| 0 <= m < |g[u].columns| && g[u].columns[m] == Shown(g[u])[i];
    assert g[u].columns[m].targets[k] in g;
  }

  /** How many levels of rows a call returns that has come `counter` levels down. */
  function Levels(depth: nat, counter: nat): nat {
    if depth <= counter + 1 then 1 else depth - counter
  }

  /** What reading a row to the given number of levels returns. */
  function Expand(g: Graph, u: Uuid, levels: nat): (json: Json)
    requires Closed(g) && u in g && levels > 0
    ensures json.uuid == u && |json.columns| == |Shown(g[u])|
    decreases levels, 1, 0
  {
    Row(u, seq(|Shown(g[u])|, i requires 0 <= i < |Shown(g[u])| => ExpandColumn(g, u, i, levels)))
  }

  function ExpandColumn(g: Graph, u: Uuid, i: nat, levels: nat): Entry
    requires Closed(g) && u in g && levels > 0 && i < |Shown(g[u])|
    decreases levels, 0
  {
    var c := Shown(g[u])[i];
    if levels == 1 then Uris(c.name, c.targets)
    else Rows(c.name, seq(|c.targets|, k requires 0 <= k < |c.targets| => ExpandTarget(g, u, i, k, levels)))
  }

  function ExpandTarget(g: Graph, u: Uuid, i: nat, k: nat, levels: nat): Json
    requires Closed(g) && u in g && levels > 1 && i < |Shown(g[u])| && k < |Shown(g[u])[i].targets|
    decreases levels - 1, 2
  {
    ShownTargets(g, u, i, k);
    Expand(g, Shown(g[u])[i].targets[k], levels - 1)
  }

  // ---------- which rows are returned ----------

  /** A way from row to row: which column, and which of its targets. */
  datatype Hop = Hop(column: nat, target: nat)

  function Follow(g: Graph, u: Uuid, path: seq<Hop>): Option<Uuid>
    requires Closed(g) && u in g
    decreases |path|
  {
    if path == [] then Some(u)
    else if path[0].column < |Shown(g[u])| && path[0].target < |Shown(g[u])[path[0].column].targets| then
      ShownTargets(g, u, path[0].column, path[0].target);
      Follow(g, Shown(g[u])[path[0].column].targets[path[0].target], path[1..])
    else None
  }

  function At(json: Json, path: seq<Hop>): Option<Json> {
    if path == [] then Some(json)
    else if path[0].column < |json.columns| && json.columns[path[0].column].Rows?
            && path[0].target < |json.columns[path[0].column].rows| then
      At(json.columns[path[0].column].rows[path[0].target], path[1..])
    else None
  }

  /** The rows returned are exactly those that fewer than `levels` references lead to, each in its place. */
  lemma {:induction false} ExpandedExactly(g: Graph, u: Uuid, levels: nat, path: seq<Hop>)
    requires Closed(g) && u in g && levels > 0
    ensures At(Expand(g, u, levels), path).Some? <==> |path| < levels && Follow(g, u, path).Some?
    ensures At(Expand(g, u, levels), path).Some? ==> Some(At(Expand(g, u, levels), path).value.uuid) == Follow(g, u, path)
    decreases |path|
  {
    if path != [] {
      var hop := path[0];
      if hop.column < |Shown(g[u])| && hop.target < |Shown(g[u])[hop.column].targets| && levels > 1 {
        ShownTargets(g, u, hop.column, hop.target);
        ExpandedExactly(g, Shown(g[u])[hop.column].targets[hop.target], levels - 1, path[1..]);
        assert Expand(g, u, levels).columns[hop.column] == ExpandColumn(g, u, hop.column, levels);
        assert ExpandColumn(g, u, hop.column, levels).rows[hop.target] == ExpandTarget(g, u, hop.column, hop.target, levels);
      } else if hop.column < |Shown(g[u])| {
        assert Expand(g, u, levels).columns[hop.column] == ExpandColumn(g, u, hop.column, levels);
      }
    }
  }

  // ---------- how many rows are returned ----------

  function Size(json: Json): nat {
    1 + SizeOfEntries(json.columns)
  }

  function SizeOfEntries(entries: seq<Entry>): nat {
    if entries == [] then 0 else SizeOfEntries(entries[..|entries| - 1]) + SizeOfEntry(entries[|entries| - 1])
  }

  function SizeOfEntry(entry: Entry): nat {
    if entry.Rows? then SizeOfRows(entry.rows) else 0
  }

  function SizeOfRows(rows: seq<Json>): nat {
    if rows == [] then 0 else SizeOfRows(rows[..|rows| - 1]) + Size(rows[|rows| - 1])
  }

  function Fan(columns: seq<Column>): nat {
    if columns == [] then 0 else Fan(columns[..|columns| - 1]) + |columns[|columns| - 1].targets|
  }

  ghost predicate FanOut(g: Graph, b: nat) {
    forall u {:trigger g[u]} :: u in g ==> Fan(Shown(g[u])) <= b
  }

  function Power(b: nat, n: nat): nat {
    if n == 0 then 1 else b * Power(b, n - 1)
  }

  /** 1 + b + ... + b^(n - 1) */
  function Geometric(b: nat, n: nat): nat {
    if n == 0 then 0 else Geometric(b, n - 1) + Power(b, n - 1)
  }

  lemma Distribute(b: nat, x: nat, y: nat)
    ensures b * (x + y) == b * x + b * y
  {
  }

  lemma {:induction false} GeometricStep(b: nat, n: nat)
    ensures Geometric(b, n + 1) == 1 + b * Geometric(b, n)
  {
    if n == 0 {
      assert Geometric(b, 1) == Geometric(b, 0) + Power(b, 0);
    } else {
      GeometricStep(b, n - 1);
      Distribute(b, Geometric(b, n - 1), Power(b, n - 1));
    }
  }

  lemma {:induction false} RowsBound(rows: seq<Json>, bound: nat)
    requires forall k :: 0 <= k < |rows| ==> Size(rows[k]) <= bound
    ensures SizeOfRows(rows) <= |rows| * bound
  {
    if rows != [] {
      RowsBound(rows[..|rows| - 1], bound);
      assert |rows| * bound == (|rows| - 1) * bound + bound;
    }
  }

  lemma {:induction false} EntriesBound(columns: seq<Column>, entries: seq<Entry>, bound: nat)
    requires |entries| == |columns|
    requires forall i :: 0 <= i < |entries| ==> SizeOfEntry(entries[i]) <= |columns[i].targets| * bound
    ensures SizeOfEntries(entries) <= Fan(columns) * bound
  {
    if entries != [] {
      var n := |entries| - 1;
      EntriesBound(columns[..n], entries[..n], bound);
      assert Fan(columns) * bound == Fan(columns[..n]) * bound + |columns[n].targets| * bound;
    }
  }

  lemma Scale(a: nat, b: nat, c: nat)
    requires a <= b
    ensures a * c <= b * c
  {
    assert b * c == a * c + (b - a) * c;
  }

  /** With at most b references from a row, no more rows are returned than a tree of that many levels holds. */
  lemma {:induction false} SizeBound(g: Graph, u: Uuid, levels: nat, b: nat)
    requires Closed(g) && u in g && levels > 0 && FanOut(g, b)
    ensures Size(Expand(g, u, levels)) <= Geometric(b, levels)
    decreases levels
  {
    var columns, entries, bound := Shown(g[u]), Expand(g, u, levels).columns, Geometric(b, levels - 1);
    forall i | 0 <= i < |entries|
      ensures SizeOfEntry(entries[i]) <= |columns[i].targets| * bound
    {
      assert entries[i] == ExpandColumn(g, u, i, levels);
      if levels > 1 {
        var rows := entries[i].rows;
        forall k | 0 <= k < |rows|
          ensures Size(rows[k]) <= bound
        {
          ShownTargets(g, u, i, k);
          assert rows[k] == ExpandTarget(g, u, i, k, levels);
          SizeBound(g, columns[i].targets[k], levels - 1, b);
        }
        RowsBound(rows, bound);
      }
    }
    EntriesBound(columns, entries, bound);
    Scale(Fan(columns), b, bound);
    GeometricStep(b, levels - 1);
  }

  // ---------- the calls ----------

  class Reader {
    const graph: Graph

    constructor (graph: Graph)
      ensures this.graph == graph
    {
      this.graph := graph;
    }

    /** Reads a row; `counter` tells how many levels have been gone through before. */
    method GetRowJson(u: Uuid, depth: nat, counter: nat) returns (json: Json)
      requires Closed(graph) && u in graph
      ensures json == Expand(graph, u, Levels(depth, counter))
      ensures json.uuid == u && |json.columns| == |Shown(graph[u])|
      ensures forall i :: 0 <= i < |json.columns| ==>
                var c := Shown(graph[u])[i];
                if depth <= counter + 1 then json.columns[i] == Uris(c.name, c.targets)
                else json.columns[i].Rows? && json.columns[i].name == c.name && |json.columns[i].rows| == |c.targets|
                     && forall k :: 0 <= k < |c.targets| ==> json.columns[i].rows[k].uuid == c.targets[k]
      decreases if depth > counter then depth - counter else 0, 1
    {
      var level := counter + 1;
      var row, below := graph[u], depth;
      var data: seq<Entry> := [];
      var i := 0;
      while i < |row.columns|
        invariant 0 <= i <= |row.columns|
        invariant below == depth || (below == 0 && level >= depth)
        invariant |data| == |ShownFrom(row, row.columns[..i])|
        invariant ShownFrom(row, row.columns[..i]) <= Shown(row)
        invariant forall k :: 0 <= k < |data| ==> data[k] == ExpandColumn(graph, u, k, Levels(depth, counter))
      {
        var c := row.columns[i];
        assert row.columns[..i + 1][..i] == row.columns[..i];
        ShownGrows(row, row.columns, i);
        if row.parent != Some(c.refTable) {
          if level >= below {
            below := 0;
          }
          if c.targets != [] {
            assert Shown(row)[|data|] == c;
            var entry := GetColumnJson(u, |data|, c, below, level, depth, counter);
            data := data + [entry];
          }
        }
        i := i + 1;
      }
      assert row.columns[..|row.columns|] == row.columns;
      json := Row(u, data);
      forall i | 0 <= i < |data| && depth > counter + 1
        ensures forall k :: 0 <= k < |Shown(row)[i].targets| ==> ExpandTarget(graph, u, i, k, Levels(depth, counter)).uuid == Shown(row)[i].targets[k]
      {
      }
    }

    /** Reads a resource: its row, and every row that fewer than `depth` references lead to. */
    method GetResource(u: Uuid, depth: nat) returns (json: Json)
      requires Closed(graph) && u in graph
      ensures forall path :: At(json, path).Some? <==> Follow(graph, u, path).Some? && (path == [] || |path| < depth)
      ensures forall path :: At(json, path).Some? ==> Some(At(json, path).value.uuid) == Follow(graph, u, path)
    {
      json := GetRowJson(u, depth, 0);
      forall path
        ensures At(json, path).Some? <==> |path| < Levels(depth, 0) && Follow(graph, u, path).Some?
        ensures At(json, path).Some? ==> Some(At(json, path).value.uuid) == Follow(graph, u, path)
      {
        ExpandedExactly(graph, u, Levels(depth, 0), path);
      }
    }

    lemma ShownGrows(row: RowRefs, columns: seq<Column>, i: nat)
      requires i < |columns| && columns[..i + 1][..i] == columns[..i]
      ensures ShownFrom(row, columns[..i + 1]) == ShownFrom(row, columns[..i]) + if IsShown(row, columns[i]) then [columns[i]] else []
      ensures ShownFrom(row, columns[..i + 1]) <= ShownFrom(row, columns)
    {
      ShownPrefix(row, columns, i + 1);
    }

    lemma {:induction false} ShownPrefix(row: RowRefs, columns: seq<Column>, i: nat)
      requires i <= |columns|
      ensures ShownFrom(row, columns[..i]) <= ShownFrom(row, columns)
      decreases |columns|
    {
      if i < |columns| {
        ShownPrefix(row, columns[..|columns| - 1], i);
        assert columns[..|columns| - 1][..i] == columns[..i];
      } else {
        assert columns[..i] == columns;
      }
    }

    /** Reads one reference column: URIs once the depth is used up, rows otherwise. */
    method GetColumnJson(u: Uuid, ghost i: nat, c: Column, below: nat, level: nat, ghost depth: nat, ghost counter: nat)
      returns (entry: Entry)
      requires Closed(graph) && u in graph && i < |Shown(graph[u])| && Shown(graph[u])[i] == c
      requires level == counter + 1 && below == if level >= depth then 0 else depth
      ensures entry == ExpandColumn(graph, u, i, Levels(depth, counter))
      decreases if below > level then below - level else 0, if below == 0 then 0 else 2
    {
      if below == 0 {
        return Uris(c.name, c.targets);
      }
      var rows: seq<Json> := [];
      var k := 0;
      while k < |c.targets|
        invariant 0 <= k == |rows| <= |c.targets|
        invariant forall m :: 0 <= m < k ==> rows[m] == ExpandTarget(graph, u, i, m, Levels(depth, counter))
      {
        ShownTargets(graph, u, i, k);
        var row := GetRowJson(c.targets[k], below, level);
        rows := rows + [row];
        k := k + 1;
      }
      entry := Rows(c.name, rows);
    }
  }
}
