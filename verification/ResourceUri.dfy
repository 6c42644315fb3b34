/** Printing a row as a URI (opsrest/utils/utils.py, row_to_uri) and parsing URIs into chains of
    resources (opsrest/parse.py). */
module ResourceUri {
  import opened Options
  import opened Database
  import Escape

  const VERSION_PATH: string := "/rest/v1/"
  const SYSTEM_URI: string := "system"

  /** `plural` are the names under which top-level tables appear in URIs, `table` leads back. */
  datatype Names = Names(plural: map<Name, string>, table: map<string, Name>)

  /** `systemId` is the UUID of the System row as a text. */
  datatype Env = Env(schema: Schema, names: Names, db: Db, system: Uuid, systemId: string)

  // ---------- what can be addressed ----------

  /** A name that stands for itself in a URI. */
  ghost predicate Plain(name: string) {
    Escape.UnquoteSplit(name) == [name]
  }

  /** A table has one name, and top-level tables are not taken for child columns of System. */
  ghost predicate ValidNames(e: Env) {
    && (forall t :: t in e.schema.tables ==> t in e.names.plural)
    && (forall t :: t in e.schema.tables && IsTopLevel(e.schema, t) ==>
          && Plain(e.names.plural[t])
          && e.names.plural[t] in e.names.table && e.names.table[e.names.plural[t]] == t
          && (SYSTEM_TABLE in e.schema.tables ==> !IsChildColumn(e.schema.tables[SYSTEM_TABLE], e.names.plural[t])))
    && (forall n :: n in e.names.table ==> e.names.table[n] in e.schema.tables)
  }

  /** The text of a UUID (section 3 of RFC 4122). */
  ghost predicate IsUuidText(s: string) {
    |s| == 36 && forall i :: 0 <= i < |s| ==> '0' <= s[i] <= '9' || 'a' <= s[i] <= 'f' || s[i] == '-'
  }

  ghost predicate ChildColumn(s: Schema, t: Name, c: Name) {
    t in s.tables && IsChildColumn(s.tables[t], c)
  }

  /** A parent table holds the rows of a child table in one column; the column of a table without an
      index bears that table's plural name. */
  ghost predicate ValidColumns(e: Env) {
    && (forall t, c, d {:trigger ChildColumn(e.schema, t, c), ChildColumn(e.schema, t, d)} ::
          && ChildColumn(e.schema, t, c) && ChildColumn(e.schema, t, d)
          && e.schema.tables[t].references[c].refTable == e.schema.tables[t].references[d].refTable
          ==> c == d)
    && (forall t, c {:trigger ChildColumn(e.schema, t, c)} :: ChildColumn(e.schema, t, c) ==>
          && Plain(c)
          && var ct := e.schema.tables[t].references[c].refTable;
          && ct in e.names.plural
          && ct in e.schema.tables
          && e.schema.tables[ct].parent == Some(t)
          && (e.schema.tables[ct].indexes == [] ==> e.names.plural[ct] == c))
  }

  ghost predicate HasIndex(e: Env, u: Uuid, t: Name, key: seq<string>) {
    && u in e.db && e.db[u].table == t && t in e.schema.tables
    && Indexable(e.schema.tables[t], e.db[u].config)
    && KeyOf(e.schema.tables[t], e.db[u].config) == key
  }

  ghost predicate UniqueIndexes(e: Env) {
    forall u, v, t, key {:trigger HasIndex(e, u, t, key), HasIndex(e, v, t, key)} ::
      t in e.schema.tables && e.schema.tables[t].indexes != [] && HasIndex(e, u, t, key) && HasIndex(e, v, t, key) ==> u == v
  }

  ghost predicate Addressable(e: Env) {
    && ValidSchema(e.schema)
    && ValidDb(e.schema, e.db)
    && Forest(e.schema, e.db)
    && ValidNames(e)
    && ValidColumns(e)
    && UniqueIndexes(e)
    && e.system in e.db && e.db[e.system].table == SYSTEM_TABLE
    && IsUuidText(e.systemId)
  }

  // ---------- where a row is ----------

  /** The way down to a row, from the System row or from a row of another top-level table. */
  datatype Trail = System | TopLevel(row: Uuid) | Under(owner: Trail, column: Name, child: Uuid)

  function RowOf(e: Env, trail: Trail): Uuid {
    match trail
    case System => e.system
    case TopLevel(u) => u
    case Under(_, _, u) => u
  }

  predicate ValidTrail(e: Env, trail: Trail) {
    match trail
    case System => true
    case TopLevel(u) => u in e.db && IsTopLevel(e.schema, e.db[u].table) && e.db[u].table != SYSTEM_TABLE
    case Under(owner, c, u) => ValidTrail(e, owner) && IsChildOf(e.schema, e.db, RowOf(e, owner), c, u)
  }

  predicate SystemRooted(trail: Trail) {
    match trail
    case System => true
    case TopLevel(_) => false
    case Under(owner, _, _) => SystemRooted(owner)
  }

  /** The row of the top-level table that the trail starts from. */
  function Base(trail: Trail): Trail {
    if trail.Under? then Base(trail.owner) else trail
  }

  ghost predicate IsKeyOf(e: Env, owner: Uuid, c: Name, u: Uuid, k: string) {
    HasKey(e.schema, e.db, owner, c, k) && e.db[owner].refs[c].entries[k] == u
  }

  /** The decoded index values of the last row of a trail. */
  ghost function IndexValues(e: Env, trail: Trail): seq<string>
    requires Addressable(e) && ValidTrail(e, trail)
  {
    match trail
    case System => []
    case TopLevel(u) => RowValues(e, u)
    case Under(owner, c, u) =>
      ChildFacts(e, owner, c, u);
      if e.schema.tables[e.db[u].table].indexes != [] then RowValues(e, u)
      else var k :| IsKeyOf(e, RowOf(e, owner), c, u, k); [k]
  }

  ghost function RowValues(e: Env, u: Uuid): seq<string>
    requires Addressable(e) && u in e.db
  {
    assert ValidRow(e.schema, e.db[u]);
    KeyOf(e.schema.tables[e.db[u].table], e.db[u].config)
  }

  lemma {:induction false} TrailRow(e: Env, trail: Trail)
    requires Addressable(e) && ValidTrail(e, trail)
    ensures RowOf(e, trail) in e.db && e.db[RowOf(e, trail)].table in e.schema.tables
  {
    match trail
    case Under(owner, c, u) =>
      assert ValidRow(e.schema, e.db[RowOf(e, owner)]);
      assert ValidTarget(e.schema, e.db, RowOf(e, owner), c, u);
      assert ValidRow(e.schema, e.db[u]);
    case _ =>
      assert ValidRow(e.schema, e.db[RowOf(e, trail)]);
  }

  lemma ChildFacts(e: Env, owner: Trail, c: Name, u: Uuid)
    requires Addressable(e) && ValidTrail(e, Under(owner, c, u))
    ensures u in e.db && e.db[u].table in e.schema.tables
    ensures var v := RowOf(e, owner); var t := e.db[v].table;
            && ChildColumn(e.schema, t, c)
            && e.db[u].table == e.schema.tables[t].references[c].refTable
            && e.schema.tables[e.db[u].table].parent == Some(t)
            && Plain(c)
            && (e.schema.tables[e.db[u].table].indexes == [] ==>
                  e.names.plural[e.db[u].table] == c && e.db[v].refs[c].Map? && exists k :: IsKeyOf(e, v, c, u, k))
  {
    var v := RowOf(e, owner);
    TrailRow(e, owner);
    assert ValidRow(e.schema, e.db[v]);
    assert ChildColumn(e.schema, e.db[v].table, c);
    assert ValidTarget(e.schema, e.db, v, c, u);
    assert ValidColumn(e.schema, e.db[v].table, c);
    if e.schema.tables[e.db[u].table].indexes == [] {
      var k :| k in e.db[v].refs[c].entries && e.db[v].refs[c].entries[k] == u;
      assert IsKeyOf(e, v, c, u, k);
    }
  }

  lemma OneKey(e: Env, v: Uuid, c: Name, u: Uuid, k1: string, k2: string)
    requires Addressable(e) && IsKeyOf(e, v, c, u, k1) && IsKeyOf(e, v, c, u, k2)
    ensures k1 == k2
  {
  }

  // ---------- printing ----------

  /** The index of a row as it is printed: index values are escaped, keys are not. */
  ghost function IndexText(e: Env, trail: Trail): string
    requires Addressable(e) && ValidTrail(e, trail)
  {
    match trail
    case System => e.systemId
    case TopLevel(u) => Escape.IndexString(RowValues(e, u))
    case Under(owner, c, u) =>
      ChildFacts(e, owner, c, u);
      if e.schema.tables[e.db[u].table].indexes != [] then Escape.IndexString(RowValues(e, u))
      else IndexValues(e, trail)[0]
  }

  /** The printer's list of path elements, from the row upwards to the System row that it stops at; at
      another top-level table it starts afresh. */
  ghost function Climb(e: Env, path: seq<string>, trail: Trail): seq<string>
    requires Addressable(e) && ValidTrail(e, trail)
    decreases trail
  {
    match trail
    case System => path + [SYSTEM_URI]
    case TopLevel(u) => [IndexText(e, trail), e.names.plural[e.db[u].table], SYSTEM_URI]
    case Under(owner, c, u) => Climb(e, path + [IndexText(e, trail), c], owner)
  }

  function Reversed(s: seq<string>): seq<string> {
    if s == [] then [] else Reversed(s[1..]) + [s[0]]
  }

  /** All path elements.  A printer that starts at the System row does not stop there: it takes the row
      for one of a top-level table like any other. */
  ghost function Printed(e: Env, trail: Trail): seq<string>
    requires Addressable(e) && ValidTrail(e, trail)
  {
    if trail.System? then SystemRowPath(e) else Climb(e, [], trail)
  }

  ghost function SystemRowPath(e: Env): seq<string>
    requires Addressable(e)
  {
    assert ValidTable(e.schema, SYSTEM_TABLE);
    [e.systemId, e.names.plural[SYSTEM_TABLE], SYSTEM_URI]
  }

  ghost function Uri(e: Env, trail: Trail): string
    requires Addressable(e) && ValidTrail(e, trail)
  {
    VERSION_PATH + Escape.Join(Reversed(Printed(e, trail)))
  }

  // ---------- parsing ----------

  datatype UriRelation = NoRelation | ToChild | ToTopLevel

  /** A chain of resources. */
  datatype Chain = Chain(table: Name, row: Option<Uuid>, index: seq<string>, column: Option<Name>, relation: UriRelation, next: Option<Chain>)

  ghost function RowWith(e: Env, t: Name, key: seq<string>): Option<Uuid> {
    if exists u :: HasIndex(e, u, t, key) then (var u :| HasIndex(e, u, t, key); Some(u)) else None
  }

  function Link(table: Name, row: Option<Uuid>, index: seq<string>, column: Option<Name>, relation: UriRelation, rest: Option<Chain>): Option<Chain> {
    if rest.None? then None else Some(Chain(table, row, index, column, relation, rest))
  }

  ghost function Resolve(e: Env, t: Name, r: Option<Uuid>, index: seq<string>, path: seq<string>): Option<Chain>
    requires ValidSchema(e.schema) && ValidNames(e) && t in e.schema.tables
    decreases |path|, 0
  {
    if path == [] then Some(Chain(t, r, index, None, NoRelation, None))
    else if IsChildColumn(e.schema.tables[t], path[0]) then
      assert ValidColumn(e.schema, t, path[0]);
      Link(t, r, index, Some(path[0]), ToChild,
           ResolveChild(e, e.schema.tables[t].references[path[0]].refTable, ChildrenOf(e, r, path[0]), path[1..]))
    else if path[0] in e.names.table && t == SYSTEM_TABLE && IsTopLevel(e.schema, e.names.table[path[0]]) then
      Link(t, r, index, None, ToTopLevel, ResolveTop(e, e.names.table[path[0]], path[1..]))
    else None
  }

  /** The entries of a key/value column. */
  function ChildrenOf(e: Env, r: Option<Uuid>, c: Name): map<string, Uuid> {
    if r.Some? && r.value in e.db && c in e.db[r.value].refs && e.db[r.value].refs[c].Map? then e.db[r.value].refs[c].entries else map[]
  }

  ghost function ResolveChild(e: Env, t: Name, children: map<string, Uuid>, path: seq<string>): Option<Chain>
    requires ValidSchema(e.schema) && ValidNames(e) && t in e.schema.tables
    decreases |path|, 1
  {
    var n := |e.schema.tables[t].indexes|;
    if path == [] then Some(Chain(t, None, [], None, NoRelation, None))
    else if n > 0 then ResolveIndex(e, t, path)
    else if path[0] in children then Resolve(e, t, Some(children[path[0]]), path[..1], path[1..])
    else None
  }

  ghost function ResolveTop(e: Env, t: Name, path: seq<string>): Option<Chain>
    requires ValidSchema(e.schema) && ValidNames(e) && t in e.schema.tables
    decreases |path|, 1
  {
    if path == [] then Some(Chain(t, None, [], None, NoRelation, None))
    else if |e.schema.tables[t].indexes| > 0 then ResolveIndex(e, t, path)
    else Resolve(e, t, None, [], path)
  }

  /** Takes as many segments as the table has index columns. */
  ghost function ResolveIndex(e: Env, t: Name, path: seq<string>): Option<Chain>
    requires ValidSchema(e.schema) && ValidNames(e) && t in e.schema.tables && |e.schema.tables[t].indexes| > 0
    decreases |path|, 0
  {
    var n := |e.schema.tables[t].indexes|;
    if |path| < n || RowWith(e, t, path[..n]).None? then None
    else Resolve(e, t, RowWith(e, t, path[..n]), path[..n], path[n..])
  }

  predicate StartsWith(s: string, prefix: string) {
    |prefix| <= |s| && s[..|prefix|] == prefix
  }

  ghost function ParseUri(e: Env, uri: string): Option<Chain>
    requires Addressable(e)
  {
    if !StartsWith(uri, VERSION_PATH) then None
    else
      var path := Escape.UnquoteSplit(uri[|VERSION_PATH|..]);
      if path == [] || path[0] != SYSTEM_URI then None
      else Resolve(e, SYSTEM_TABLE, Some(e.system), [], path[1..])
  }

  /** The last resource of a chain. */
  function Target(chain: Chain): (Name, Option<Uuid>) {
    if chain.next.None? then (chain.table, chain.row) else Target(chain.next.value)
  }

  ghost predicate LeadsTo(chain: Option<Chain>, t: Name, u: Uuid) {
    chain.Some? && Target(chain.value) == (t, Some(u))
  }

  // ---------- print, then parse ----------

  function Joined(a: string, b: string): string {
    a + [Escape.SEPARATOR] + b
  }

  lemma JoinedTail(a: string, b: string)
    ensures a == "" ==> Joined(a, b)[0] == Escape.SEPARATOR && Joined(a, b)[1..] == b
    ensures a != "" ==> Joined(a, b)[0] == a[0] && Joined(a, b)[1..] == Joined(a[1..], b)
  {
  }

  lemma SplitStep(s: string)
    requires s != ""
    ensures var rest := Escape.Split(s[1..]);
            Escape.Split(s) == if s[0] == Escape.SEPARATOR then [""] + rest else [[s[0]] + rest[0]] + rest[1..]
  {
  }

  lemma HeadThenRest(c: char, rest: seq<string>, more: seq<string>)
    requires rest != []
    ensures [[c] + (rest + more)[0]] + (rest + more)[1..] == [[c] + rest[0]] + rest[1..] + more
  {
  }

  lemma {:induction false} SplitConcat(a: string, b: string)
    ensures Escape.Split(Joined(a, b)) == Escape.Split(a) + Escape.Split(b)
    decreases |a|
  {
    JoinedTail(a, b);
    SplitStep(Joined(a, b));
    if a != "" {
      SplitConcat(a[1..], b);
      SplitStep(a);
      HeadThenRest(a[0], Escape.Split(a[1..]), Escape.Split(b));
    }
  }

  lemma {:induction false} NonEmptyConcat(a: seq<string>, b: seq<string>)
    ensures Escape.NonEmpty(a + b) == Escape.NonEmpty(a) + Escape.NonEmpty(b)
  {
    if a == [] {
      assert a + b == b;
    } else {
      assert (a + b)[1..] == a[1..] + b;
      NonEmptyConcat(a[1..], b);
    }
  }

  lemma {:induction false} UnquoteConcat(a: seq<string>, b: seq<string>)
    ensures Escape.UnquoteAll(a + b) == Escape.UnquoteAll(a) + Escape.UnquoteAll(b)
  {
    if a == [] {
      assert a + b == b;
    } else {
      assert (a + b)[1..] == a[1..] + b;
      UnquoteConcat(a[1..], b);
    }
  }

  lemma UnquoteSplitConcat(a: string, b: string)
    ensures Escape.UnquoteSplit(a + [Escape.SEPARATOR] + b) == Escape.UnquoteSplit(a) + Escape.UnquoteSplit(b)
  {
    SplitConcat(a, b);
    NonEmptyConcat(Escape.Split(a), Escape.Split(b));
    UnquoteConcat(Escape.NonEmpty(Escape.Split(a)), Escape.NonEmpty(Escape.Split(b)));
  }

  function SplitAll(path: seq<string>): seq<string> {
    if path == [] then [] else Escape.UnquoteSplit(path[0]) + SplitAll(path[1..])
  }

  /** A joined path splits into what its elements split into. */
  lemma {:induction false} SplitJoined(path: seq<string>)
    requires path != []
    ensures Escape.UnquoteSplit(Escape.Join(path)) == SplitAll(path)
  {
    if |path| == 1 {
      assert SplitAll(path[1..]) == [];
    } else {
      UnquoteSplitConcat(path[0], Escape.Join(path[1..]));
      SplitJoined(path[1..]);
    }
  }

  lemma {:induction false} SplitAllConcat(a: seq<string>, b: seq<string>)
    ensures SplitAll(a + b) == SplitAll(a) + SplitAll(b)
  {
    if a == [] {
      assert a + b == b;
    } else {
      assert (a + b)[1..] == a[1..] + b;
      SplitAllConcat(a[1..], b);
    }
  }

  lemma {:induction false} ReversedConcat(a: seq<string>, b: seq<string>)
    ensures Reversed(a + b) == Reversed(b) + Reversed(a)
  {
    if a == [] {
      assert a + b == b;
    } else {
      assert (a + b)[1..] == a[1..] + b;
      ReversedConcat(a[1..], b);
    }
  }

  /** Index values and keys that survive printing and parsing. */
  ghost predicate CleanIndex(e: Env, trail: Trail)
    requires Addressable(e) && ValidTrail(e, trail)
  {
    match trail
    case System => true
    case TopLevel(u) => CleanKey(RowValues(e, u))
    case Under(owner, c, u) =>
      ChildFacts(e, owner, c, u);
      if e.schema.tables[e.db[u].table].indexes != [] then CleanKey(RowValues(e, u)) else Plain(IndexValues(e, trail)[0])
  }

  ghost predicate CleanTrail(e: Env, trail: Trail)
    requires Addressable(e) && ValidTrail(e, trail)
  {
    CleanIndex(e, trail) && (trail.Under? ==> CleanTrail(e, trail.owner))
  }

  lemma IndexTextSplits(e: Env, trail: Trail)
    requires Addressable(e) && ValidTrail(e, trail) && CleanIndex(e, trail) && !trail.System?
    ensures Escape.UnquoteSplit(IndexText(e, trail)) == IndexValues(e, trail)
  {
    match trail
    case TopLevel(u) =>
      Escape.IndexStringSplits(RowValues(e, u));
    case Under(owner, c, u) =>
      ChildFacts(e, owner, c, u);
      if e.schema.tables[e.db[u].table].indexes != [] {
        Escape.IndexStringSplits(RowValues(e, u));
      }
  }

  /** The segments of a System-rooted row below /system. */
  ghost function Segments(e: Env, trail: Trail): seq<string>
    requires Addressable(e) && ValidTrail(e, trail)
  {
    match trail
    case System => []
    case TopLevel(u) => [e.names.plural[e.db[u].table]] + IndexValues(e, trail)
    case Under(owner, c, u) => Segments(e, owner) + [c] + IndexValues(e, trail)
  }

  lemma {:induction false} PrintedSegments(e: Env, path: seq<string>, trail: Trail)
    requires Addressable(e) && ValidTrail(e, trail) && CleanTrail(e, trail) && SystemRooted(trail)
    decreases trail
    ensures SplitAll(Reversed(Climb(e, path, trail))) == [SYSTEM_URI] + Segments(e, trail) + SplitAll(Reversed(path))
  {
    match trail
    case System =>
      SystemIsPlain();
      ReversedConcat(path, [SYSTEM_URI]);
      SplitAllConcat([SYSTEM_URI], Reversed(path));
      assert Reversed([SYSTEM_URI]) == [SYSTEM_URI];
      assert SplitAll([SYSTEM_URI]) == [SYSTEM_URI];
    case Under(owner, c, u) =>
      PrintedSegments(e, path + [IndexText(e, trail), c], owner);
      ChildFacts(e, owner, c, u);
      IndexTextSplits(e, trail);
      StepSegments(path, IndexText(e, trail), c);
      Regroup([SYSTEM_URI], Segments(e, owner), [c], IndexValues(e, trail), SplitAll(Reversed(path)));
  }

  lemma Regroup(a: seq<string>, b: seq<string>, c: seq<string>, d: seq<string>, x: seq<string>)
    ensures a + b + (c + d + x) == a + (b + c + d) + x
  {
  }

  lemma SystemIsPlain()
    ensures Plain(SYSTEM_URI)
  {
    Escape.SplitWithoutSeparator(SYSTEM_URI);
    assert Escape.NonEmpty([SYSTEM_URI]) == [SYSTEM_URI];
    UnreservedIsPlain(SYSTEM_URI);
  }

  lemma {:induction false} UnreservedIsPlain(s: string)
    requires '%' !in s
    ensures Escape.Unquote(s) == s
  {
    if s != "" {
      assert s[0] in s;
      assert forall i :: 0 <= i < |s[1..]| ==> s[1..][i] in s;
      UnreservedIsPlain(s[1..]);
    }
  }

  lemma StepSegments(path: seq<string>, index: string, c: Name)
    requires Plain(c)
    ensures SplitAll(Reversed(path + [index, c])) == [c] + Escape.UnquoteSplit(index) + SplitAll(Reversed(path))
  {
    ReversedConcat(path, [index, c]);
    assert [index, c][1..] == [c] && [c][1..] == [];
    assert Reversed([c]) == [c];
    assert Reversed([index, c]) == [c, index];
    assert [c, index][1..] == [index] && [index][1..] == [];
    assert SplitAll([index]) == Escape.UnquoteSplit(index);
    SplitAllConcat([c, index], Reversed(path));
  }

  /** Parsing follows a System-rooted trail down to its row. */
  lemma {:induction false} ResolveFollows(e: Env, trail: Trail, more: seq<string>)
    requires Addressable(e) && ValidTrail(e, trail) && SystemRooted(trail)
    ensures var all := Resolve(e, SYSTEM_TABLE, Some(e.system), [], Segments(e, trail) + more);
            var rest := Resolve(e, TableOf(e, trail), Some(RowOf(e, trail)), IndexValues(e, trail), more);
            all.Some? == rest.Some? && (all.Some? ==> Target(all.value) == Target(rest.value))
  {
    match trail
    case System =>
      assert Segments(e, trail) + more == more;
    case Under(owner, c, u) =>
      var path := [c] + IndexValues(e, trail) + more;
      ResolveFollows(e, owner, path);
      assert Segments(e, trail) + more == Segments(e, owner) + path;
      ResolveStep(e, trail, IndexValues(e, owner), more);
  }

  ghost function TableOf(e: Env, trail: Trail): Name
    requires Addressable(e) && ValidTrail(e, trail)
    ensures TableOf(e, trail) in e.schema.tables
  {
    TrailRow(e, trail);
    e.db[RowOf(e, trail)].table
  }

  lemma ResolveStep(e: Env, trail: Trail, index: seq<string>, more: seq<string>)
    requires Addressable(e) && trail.Under? && ValidTrail(e, trail)
    ensures var whole := Resolve(e, TableOf(e, trail.owner), Some(RowOf(e, trail.owner)), index,
                                 [trail.column] + IndexValues(e, trail) + more);
            var rest := Resolve(e, TableOf(e, trail), Some(RowOf(e, trail)), IndexValues(e, trail), more);
            whole.Some? == rest.Some? && (whole.Some? ==> Target(whole.value) == Target(rest.value))
  {
    var owner, c := trail.owner, trail.column;
    ChildFacts(e, owner, c, trail.child);
    TrailRow(e, owner);
    assert [c] + IndexValues(e, trail) + more == [c] + (IndexValues(e, trail) + more);
    ResolveColumn(e, TableOf(e, owner), RowOf(e, owner), index, c, IndexValues(e, trail) + more);
    ResolveEntry(e, trail, more);
  }

  lemma ResolveColumn(e: Env, t: Name, r: Uuid, index: seq<string>, c: Name, rest: seq<string>)
    requires ValidSchema(e.schema) && ValidNames(e) && ChildColumn(e.schema, t, c)
    ensures e.schema.tables[t].references[c].refTable in e.schema.tables
    ensures var below := ResolveChild(e, e.schema.tables[t].references[c].refTable, ChildrenOf(e, Some(r), c), rest);
            var whole := Resolve(e, t, Some(r), index, [c] + rest);
            whole.Some? == below.Some? && (whole.Some? ==> Target(whole.value) == Target(below.value))
  {
    assert ValidColumn(e.schema, t, c);
    assert ([c] + rest)[1..] == rest;
  }

  lemma ResolveEntry(e: Env, trail: Trail, more: seq<string>)
    requires Addressable(e) && trail.Under? && ValidTrail(e, trail)
    ensures ResolveChild(e, TableOf(e, trail), ChildrenOf(e, Some(RowOf(e, trail.owner)), trail.column), IndexValues(e, trail) + more)
            == Resolve(e, TableOf(e, trail), Some(RowOf(e, trail)), IndexValues(e, trail), more)
  {
    var owner, c, u := trail.owner, trail.column, trail.child;
    ChildFacts(e, owner, c, u);
    var values := IndexValues(e, trail);
    if e.schema.tables[e.db[u].table].indexes != [] {
      ResolveRow(e, u, more);
    } else {
      var k :| IsKeyOf(e, RowOf(e, owner), c, u, k) && values == [k];
      var path := values + more;
      assert path[..1] == values && path[1..] == more;
    }
  }

  lemma ResolveRow(e: Env, u: Uuid, more: seq<string>)
    requires Addressable(e) && u in e.db && e.db[u].table in e.schema.tables && e.schema.tables[e.db[u].table].indexes != []
    ensures ResolveIndex(e, e.db[u].table, RowValues(e, u) + more) == Resolve(e, e.db[u].table, Some(u), RowValues(e, u), more)
  {
    var t, key := e.db[u].table, RowValues(e, u);
    assert ValidRow(e.schema, e.db[u]);
    assert HasIndex(e, u, t, key);
    var v := RowWith(e, t, key).value;
    assert HasIndex(e, v, t, key);
    assert (key + more)[..|key|] == key && (key + more)[|key|..] == more;
  }

  lemma PrefixIsDropped(rest: string)
    ensures StartsWith(VERSION_PATH + rest, VERSION_PATH) && (VERSION_PATH + rest)[|VERSION_PATH|..] == rest
  {
  }

  /** The URI of a row below System leads back to the row. */
  lemma SystemRoundTrip(e: Env, trail: Trail)
    requires Addressable(e) && ValidTrail(e, trail) && CleanTrail(e, trail) && SystemRooted(trail) && trail.Under?
    ensures LeadsTo(ParseUri(e, Uri(e, trail)), TableOf(e, trail), RowOf(e, trail))
  {
    var path := Reversed(Climb(e, [], trail));
    PrintedSegments(e, [], trail);
    assert SplitAll(Reversed([])) == [];
    assert Segments(e, trail) + [] == Segments(e, trail);
    ParsePath(e, path, Segments(e, trail));
    ResolveFollows(e, trail, []);
    assert Segments(e, trail) + [] == Segments(e, trail);
  }

  /** So does the URI of a row of another top-level table. */
  lemma TopRoundTrip(e: Env, u: Uuid)
    requires Addressable(e) && ValidTrail(e, TopLevel(u)) && CleanIndex(e, TopLevel(u))
    ensures LeadsTo(ParseUri(e, Uri(e, TopLevel(u))), e.db[u].table, u)
  {
    var trail, t := TopLevel(u), e.db[u].table;
    var name, index := e.names.plural[t], IndexText(e, trail);
    var path := [SYSTEM_URI, name, index];
    ThreeReversed(index, name, SYSTEM_URI);
    SystemIsPlain();
    IndexTextSplits(e, trail);
    ThreeSplit(SYSTEM_URI, name, index);
    ParsePath(e, path, [name] + IndexValues(e, trail));
    ResolveTopRow(e, u);
  }

  lemma ResolveTopRow(e: Env, u: Uuid)
    requires Addressable(e) && ValidTrail(e, TopLevel(u))
    ensures LeadsTo(Resolve(e, SYSTEM_TABLE, Some(e.system), [], [e.names.plural[e.db[u].table]] + RowValues(e, u)), e.db[u].table, u)
  {
    var t, values := e.db[u].table, RowValues(e, u);
    var segments := [e.names.plural[t]] + values;
    assert ValidTable(e.schema, t);
    assert segments[1..] == values && values + [] == values;
    ResolveRow(e, u, []);
    assert ResolveTop(e, t, values) == Resolve(e, t, Some(u), values, []);
  }

  lemma UuidIsPlain(s: string)
    requires IsUuidText(s)
    ensures Plain(s)
  {
    assert forall c :: c in s ==> c != Escape.SEPARATOR && c != '%';
    Escape.SplitWithoutSeparator(s);
    assert [s][1..] == [];
    assert Escape.NonEmpty([s]) == [s];
    UnreservedIsPlain(s);
    assert Escape.UnquoteAll([s]) == [Escape.Unquote(s)];
  }

  /** What the parser makes of the path that is printed for the System row. */
  lemma ParseSystemRow(e: Env)
    requires Addressable(e)
    ensures SYSTEM_TABLE in e.names.plural
    ensures ParseUri(e, Uri(e, System)) == Resolve(e, SYSTEM_TABLE, Some(e.system), [], [e.names.plural[SYSTEM_TABLE], e.systemId])
  {
    assert ValidTable(e.schema, SYSTEM_TABLE);
    var name := e.names.plural[SYSTEM_TABLE];
    ThreeReversed(e.systemId, name, SYSTEM_URI);
    SystemIsPlain();
    UuidIsPlain(e.systemId);
    ThreeSplit(SYSTEM_URI, name, e.systemId);
    assert [name] + [e.systemId] == [name, e.systemId];
    ParsePath(e, [SYSTEM_URI, name, e.systemId], [name, e.systemId]);
  }

  /** A name that can follow a System resource. */
  predicate BelowSystem(e: Env, name: string) {
    || ChildColumnOfSystem(e, name)
    || (name in e.names.table && IsTopLevel(e.schema, e.names.table[name]))
  }

  predicate ChildColumnOfSystem(e: Env, name: string) {
    SYSTEM_TABLE in e.schema.tables && IsChildColumn(e.schema.tables[SYSTEM_TABLE], name)
  }

  /** The URI of the System row itself never leads back to it: the table has no index that the UUID could
      be read as, so the parser takes the UUID for a name, and finds nothing unless there is such a name. */
  lemma SystemRowIsLost(e: Env)
    requires Addressable(e)
    ensures !LeadsTo(ParseUri(e, Uri(e, System)), SYSTEM_TABLE, e.system)
    ensures ParseUri(e, Uri(e, System)).None? <==> !BelowSystem(e, e.systemId)
  {
    ParseSystemRow(e);
    assert ValidTable(e.schema, SYSTEM_TABLE);
    var name, id := e.names.plural[SYSTEM_TABLE], e.systemId;
    assert [name, id][1..] == [id] && [id][1..] == [];
    var below := Resolve(e, SYSTEM_TABLE, None, [], [id]);
    assert ParseUri(e, Uri(e, System)) == Link(SYSTEM_TABLE, Some(e.system), [], None, ToTopLevel, below);
    EndsWithoutRow(e, id);
  }

  /** A name at the end of a path leads to no row. */
  lemma EndsWithoutRow(e: Env, name: string)
    requires Addressable(e)
    ensures SYSTEM_TABLE in e.schema.tables
    ensures var chain := Resolve(e, SYSTEM_TABLE, None, [], [name]);
            && (chain.Some? <==> BelowSystem(e, name))
            && (chain.Some? ==> Target(chain.value).1 == None)
  {
    assert [name][1..] == [];
    if ChildColumnOfSystem(e, name) {
      assert ValidColumn(e.schema, SYSTEM_TABLE, name);
      var ct := e.schema.tables[SYSTEM_TABLE].references[name].refTable;
      assert ResolveChild(e, ct, ChildrenOf(e, None, name), []) == Some(Chain(ct, None, [], None, NoRelation, None));
    } else if BelowSystem(e, name) {
      var t := e.names.table[name];
      assert ResolveTop(e, t, []) == Some(Chain(t, None, [], None, NoRelation, None));
    }
  }

  lemma ThreeReversed(a: string, b: string, c: string)
    ensures Reversed([a, b, c]) == [c, b, a]
  {
    assert [a, b, c][1..] == [b, c] && [b, c][1..] == [c] && [c][1..] == [];
    assert Reversed([c]) == [c];
    assert Reversed([b, c]) == [c, b];
  }

  lemma ThreeSplit(a: string, b: string, c: string)
    requires Plain(a) && Plain(b)
    ensures SplitAll([a, b, c]) == [a] + ([b] + Escape.UnquoteSplit(c))
  {
    assert [a, b, c][1..] == [b, c] && [b, c][1..] == [c] && [c][1..] == [];
    assert SplitAll([c]) == Escape.UnquoteSplit(c);
    assert SplitAll([b, c]) == [b] + Escape.UnquoteSplit(c);
  }

  /** The printer forgets what it has when it comes to a top-level table other than System. */
  lemma {:induction false} PathIsOverwritten(e: Env, path: seq<string>, trail: Trail)
    requires Addressable(e) && ValidTrail(e, trail) && !SystemRooted(trail)
    ensures Base(trail).TopLevel? && ValidTrail(e, Base(trail))
    ensures Climb(e, path, trail) == Climb(e, [], Base(trail))
    decreases trail
  {
    match trail
    case TopLevel(_) =>
    case Under(owner, c, _) =>
      PathIsOverwritten(e, path + [IndexText(e, trail), c], owner);
  }

  lemma {:induction false} BaseIsClean(e: Env, trail: Trail)
    requires Addressable(e) && ValidTrail(e, trail) && CleanTrail(e, trail)
    ensures ValidTrail(e, Base(trail)) && CleanIndex(e, Base(trail))
  {
    if trail.Under? {
      BaseIsClean(e, trail.owner);
    }
  }

  lemma {:induction false} BaseIsHigher(e: Env, trail: Trail)
    requires Addressable(e) && ValidTrail(e, trail) && trail.Under?
    ensures ValidTrail(e, Base(trail)) && e.schema.tables[TableOf(e, trail)].parent.Some?
    ensures Base(trail).TopLevel? ==> RowOf(e, Base(trail)) != RowOf(e, trail)
  {
    ChildFacts(e, trail.owner, trail.column, trail.child);
    if trail.owner.Under? {
      BaseIsHigher(e, trail.owner);
    }
  }

  /** The URI of a row leads back to it exactly when the row is below System or in another top-level table;
      below such a table it leads to the top-level row above. */
  lemma UriRoundTrip(e: Env, trail: Trail)
    requires Addressable(e) && ValidTrail(e, trail) && CleanTrail(e, trail)
    ensures ValidTrail(e, Base(trail))
    ensures LeadsTo(ParseUri(e, Uri(e, trail)), TableOf(e, trail), RowOf(e, trail))
            <==> (SystemRooted(trail) && trail.Under?) || trail.TopLevel?
    ensures !SystemRooted(trail) ==> LeadsTo(ParseUri(e, Uri(e, trail)), TableOf(e, Base(trail)), RowOf(e, Base(trail)))
  {
    BaseIsClean(e, trail);
    if trail.System? {
      SystemRowIsLost(e);
    } else if SystemRooted(trail) {
      SystemRoundTrip(e, trail);
    } else {
      PathIsOverwritten(e, [], trail);
      TopRoundTrip(e, Base(trail).row);
      if trail.Under? {
        BaseIsHigher(e, trail);
      }
    }
  }

  // ---------- keys ----------

  /** Below a table other than System, parsing goes down a level with every step. */
  lemma {:induction false} ResolveGoesDown(e: Env, t: Name, r: Option<Uuid>, index: seq<string>, path: seq<string>)
    requires ValidSchema(e.schema) && ValidNames(e) && t in e.schema.tables && t in e.schema.level && t != SYSTEM_TABLE
    ensures var chain := Resolve(e, t, r, index, path);
            chain.Some? ==>
              && Target(chain.value).0 in e.schema.level
              && (if path == [] then Target(chain.value) == (t, r)
                  else e.schema.level[Target(chain.value).0] < e.schema.level[t])
    decreases |path|
  {
    if path != [] && IsChildColumn(e.schema.tables[t], path[0]) {
      assert ValidColumn(e.schema, t, path[0]);
      var ct, rest := e.schema.tables[t].references[path[0]].refTable, path[1..];
      assert ValidTable(e.schema, ct);
      var n := |e.schema.tables[ct].indexes|;
      var below := ResolveChild(e, ct, ChildrenOf(e, r, path[0]), rest);
      assert Resolve(e, t, r, index, path) == Link(t, r, index, Some(path[0]), ToChild, below);
      if rest == [] {
        assert below == Some(Chain(ct, None, [], None, NoRelation, None));
      } else if 0 < n <= |rest| {
        assert below == ResolveIndex(e, ct, rest);
        ResolveGoesDown(e, ct, RowWith(e, ct, rest[..n]), rest[..n], rest[n..]);
      } else if n == 0 {
        var children := ChildrenOf(e, r, path[0]);
        if rest[0] in children {
          ResolveGoesDown(e, ct, Some(children[rest[0]]), rest[..1], rest[1..]);
        }
      } else {
        assert ResolveIndex(e, ct, rest) == None;
      }
    }
  }

  /** Of a key/value column, only the child's own key leads to the child. */
  lemma KeyLeadsHome(e: Env, v: Uuid, c: Name, u: Uuid, k: string, segments: seq<string>)
    requires Addressable(e) && v in e.db && ChildColumn(e.schema, e.db[v].table, c) && IsKeyOf(e, v, c, u, k)
    requires u in e.db && e.db[u].table == e.schema.tables[e.db[v].table].references[c].refTable
    requires e.db[u].table in e.schema.tables && e.schema.tables[e.db[u].table].indexes == []
    ensures LeadsTo(ResolveChild(e, e.db[u].table, ChildrenOf(e, Some(v), c), segments), e.db[u].table, u) <==> segments == [k]
  {
    var ct, children := e.db[u].table, ChildrenOf(e, Some(v), c);
    assert ValidColumn(e.schema, e.db[v].table, c);
    assert ValidTable(e.schema, ct);
    if segments != [] && segments[0] in children {
      ResolveGoesDown(e, ct, Some(children[segments[0]]), segments[..1], segments[1..]);
      if children[segments[0]] == u {
        assert IsKeyOf(e, v, c, u, segments[0]);
        OneKey(e, v, c, u, k, segments[0]);
      }
    }
    assert segments != [] ==> segments == [segments[0]] + segments[1..];
  }

  /** Keys are printed as they are, so the URI of a row in a key/value column leads back to it exactly
      when its key stands for itself. */
  lemma KeyRoundTrip(e: Env, trail: Trail)
    requires Addressable(e) && trail.Under? && ValidTrail(e, trail) && SystemRooted(trail) && CleanTrail(e, trail.owner)
    requires e.schema.tables[TableOf(e, trail)].indexes == []
    ensures LeadsTo(ParseUri(e, Uri(e, trail)), TableOf(e, trail), RowOf(e, trail)) <==> Plain(IndexText(e, trail))
  {
    var owner, c, u := trail.owner, trail.column, trail.child;
    ChildFacts(e, owner, c, u);
    TrailRow(e, owner);
    var v := RowOf(e, owner);
    var k :| IsKeyOf(e, v, c, u, k) && IndexText(e, trail) == k;
    var segments := Escape.UnquoteSplit(k);
    KeyPath(e, trail, k);
    ResolveFollows(e, owner, [c] + segments);
    ResolveColumn(e, TableOf(e, owner), v, IndexValues(e, owner), c, segments);
    KeyLeadsHome(e, v, c, u, k, segments);
  }

  lemma KeyPath(e: Env, trail: Trail, k: string)
    requires Addressable(e) && trail.Under? && ValidTrail(e, trail) && SystemRooted(trail) && CleanTrail(e, trail.owner)
    requires k == IndexText(e, trail)
    ensures ParseUri(e, Uri(e, trail))
         == Resolve(e, SYSTEM_TABLE, Some(e.system), [], Segments(e, trail.owner) + ([trail.column] + Escape.UnquoteSplit(k)))
  {
    var owner, c := trail.owner, trail.column;
    ChildFacts(e, owner, c, trail.child);
    var path, below := Reversed(Climb(e, [k, c], owner)), [c] + Escape.UnquoteSplit(k);
    assert [] + [k, c] == [k, c];
    assert path == Reversed(Climb(e, [], trail));
    PrintedSegments(e, [k, c], owner);
    StepSegments([], k, c);
    Append([SYSTEM_URI], Segments(e, owner), below);
    ParsePath(e, path, Segments(e, owner) + below);
  }

  lemma Append(a: seq<string>, b: seq<string>, c: seq<string>)
    ensures a + b + (c + SplitAll(Reversed([]))) == a + (b + c)
  {
    assert SplitAll(Reversed([])) == [];
  }

  lemma ParsePath(e: Env, path: seq<string>, segments: seq<string>)
    requires Addressable(e) && SplitAll(path) == [SYSTEM_URI] + segments
    ensures ParseUri(e, VERSION_PATH + Escape.Join(path)) == Resolve(e, SYSTEM_TABLE, Some(e.system), [], segments)
  {
    assert path != [];
    SplitJoined(path);
    PrefixIsDropped(Escape.Join(path));
    assert ([SYSTEM_URI] + segments)[1..] == segments;
  }

  // ---------- the printer ----------

  class Printer {
    const env: Env

    constructor (env: Env)
      ensures this.env == env
    {
      this.env := env;
    }

    /** The row of `parentTable` that has `u` in its child column, if there is one. */
    method FindOwner(u: Uuid, parentTable: Name, c: Name) returns (owner: Option<Uuid>)
      requires parentTable in env.schema.tables && IsChildColumn(env.schema.tables[parentTable], c)
      ensures owner.Some? ==> IsChildOf(env.schema, env.db, owner.value, c, u) && env.db[owner.value].table == parentTable
      ensures owner.None? ==> forall v :: v in env.db && env.db[v].table == parentTable ==> !IsChildOf(env.schema, env.db, v, c, u)
    {
      var todo := env.db.Keys;
      while todo != {}
        invariant todo <= env.db.Keys
        invariant forall v :: v in env.db.Keys - todo && env.db[v].table == parentTable ==> !IsChildOf(env.schema, env.db, v, c, u)
        decreases todo
      {
        var v :| v in todo;
        todo := todo - {v};
        if env.db[v].table == parentTable && IsChildOf(env.schema, env.db, v, c, u) {
          return Some(v);
        }
      }
      owner := None;
    }

    /** The child column of `parentTable` that holds rows of table `t`. */
    method FindColumn(parentTable: Name, t: Name, ghost expected: Name) returns (c: Name)
      requires Addressable(env) && ChildColumn(env.schema, parentTable, expected)
      requires env.schema.tables[parentTable].references[expected].refTable == t
      ensures c == expected
    {
      var todo := env.schema.tables[parentTable].references.Keys;
      while todo != {}
        invariant todo <= env.schema.tables[parentTable].references.Keys && expected in todo
        decreases todo
      {
        c :| c in todo;
        todo := todo - {c};
        var column := env.schema.tables[parentTable].references[c];
        if column.relation == Child && column.refTable == t {
          assert ChildColumn(env.schema, parentTable, c);
          return;
        }
      }
    }

    /** The index of a row: its escaped index values, or its key in the owner's column. */
    method RowToIndex(u: Uuid, owner: Option<Uuid>, ghost trail: Trail) returns (index: string)
      requires Addressable(env) && ValidTrail(env, trail) && RowOf(env, trail) == u
      requires trail.Under? ==> owner == Some(RowOf(env, trail.owner))
      ensures index == IndexText(env, trail)
    {
      TrailRow(env, trail);
      assert ValidRow(env.schema, env.db[u]);
      var t := env.db[u].table;
      var ts := env.schema.tables[t];
      assert ValidTable(env.schema, t);
      if trail.Under? {
        ChildFacts(env, trail.owner, trail.column, u);
      }
      if ts.indexes != [] {
        return Escape.IndexString(KeyOf(ts, env.db[u].config));
      }
      if ts.parent.None? {
        return env.systemId;
      }
      var column := env.db[owner.value].refs[env.names.plural[t]].entries;
      var todo := column.Keys;
      ghost var k :| IsKeyOf(env, owner.value, trail.column, u, k) && IndexText(env, trail) == k;
      while todo != {}
        invariant todo <= column.Keys && k in todo
        decreases todo
      {
        index :| index in todo;
        todo := todo - {index};
        if column[index] == u {
          assert IsKeyOf(env, owner.value, trail.column, u, index);
          return;
        }
      }
    }

    /** What is printed from here on. */
    ghost predicate Ahead(path: seq<string>, rest: Trail, trail: Trail)
      requires Addressable(env) && ValidTrail(env, rest) && ValidTrail(env, trail)
    {
      Printed(env, trail) == if rest.System? then SystemRowPath(env) else Climb(env, path, rest)
    }

    /** Climbs from a row to the System row and prints what it passes; that it has arrived it only
        notices after a step. */
    method RowToUri(u: Uuid, ghost trail: Trail) returns (uri: string)
      requires Addressable(env) && ValidTrail(env, trail) && RowOf(env, trail) == u
      ensures uri == Uri(env, trail)
    {
      var path: seq<string> := [];
      var row := u;
      TrailRow(env, trail);
      var table := env.db[row].table;
      ghost var rest := trail;
      while true
        invariant ValidTrail(env, rest) && RowOf(env, rest) == row && row in env.db && env.db[row].table == table
        invariant table in env.schema.tables
        invariant Ahead(path, rest, trail)
        decreases rest
      {
        assert ValidTable(env.schema, table);
        if rest.Under? {
          ChildFacts(env, rest.owner, rest.column, row);
        }
        if env.schema.tables[table].parent.None? {
          var index := RowToIndex(row, None, rest);
          path := [index, env.names.plural[table]];
          table := SYSTEM_TABLE;
          assert !rest.Under?;
          assert path + [SYSTEM_URI] == Printed(env, trail);
        } else {
          TrailRow(env, rest.owner);
          var parentTable := env.schema.tables[table].parent.value;
          var name := FindColumn(parentTable, table, rest.column);
          var owner := FindOwner(row, parentTable, name);
          assert IsChildOf(env.schema, env.db, RowOf(env, rest.owner), name, row);
          var index := RowToIndex(row, owner, rest);
          path := path + [index, name];
          row, table, rest := owner.value, parentTable, rest.owner;
          assert Printed(env, trail) == Climb(env, path, rest);
        }
        if table == SYSTEM_TABLE {
          if env.db[row].table == SYSTEM_TABLE {
            SystemOnly(env, rest);
          }
          path := path + [SYSTEM_URI];
          break;
        }
      }
      uri := VERSION_PATH + Escape.Join(Reversed(path));
    }
  }

  lemma SystemOnly(e: Env, trail: Trail)
    requires Addressable(e) && ValidTrail(e, trail) && TableOf(e, trail) == SYSTEM_TABLE
    ensures trail.System?
  {
    assert ValidTable(e.schema, SYSTEM_TABLE);
    if trail.Under? {
      ChildFacts(e, trail.owner, trail.column, trail.child);
    }
  }

  // ---------- the parser ----------

  class Resource {
    const table: Name
    var row: Option<Uuid>
    var index: seq<string>
    var column: Option<Name>
    var relation: UriRelation
    var next: Resource?

    constructor (table: Name)
      ensures this.table == table && row == None && index == [] && column == None && relation == NoRelation && next == null
    {
      this.table := table;
      row, index, column, relation, next := None, [], None, NoRelation, null;
    }
  }

  /** The resources in `objects` are linked as `chain` says. */
  ghost predicate Linked(objects: seq<Resource>, chain: Chain)
    reads objects
    decreases chain
  {
    && objects != []
    && var r := objects[0];
    && chain.table == r.table && chain.row == r.row && chain.index == r.index
    && chain.column == r.column && chain.relation == r.relation
    && (match chain.next
        case None => r.next == null && |objects| == 1
        case Some(rest) => |objects| > 1 && r.next == objects[1] && Linked(objects[1..], rest))
  }

  class Parser {
    const env: Env

    constructor (env: Env)
      ensures this.env == env
    {
      this.env := env;
    }

    /** Goes through a table for the row with these index values (opsrest/utils/utils.py, index_to_row). */
    method IndexToRow(key: seq<string>, t: Name) returns (row: Option<Uuid>)
      requires Addressable(env) && t in env.schema.tables && env.schema.tables[t].indexes != []
      ensures row == RowWith(env, t, key)
    {
      var todo := env.db.Keys;
      while todo != {}
        invariant todo <= env.db.Keys
        invariant forall u :: u in env.db.Keys - todo ==> !HasIndex(env, u, t, key)
        decreases todo
      {
        var u :| u in todo;
        todo := todo - {u};
        assert ValidRow(env.schema, env.db[u]);
        if env.db[u].table == t && KeyOf(env.schema.tables[t], env.db[u].config) == key {
          assert HasIndex(env, u, t, key);
          return Some(u);
        }
      }
      row := None;
    }

    ghost predicate Blank(r: Resource)
      reads r
    {
      r.column == None && r.relation == NoRelation && r.next == null
    }

    /** The row of a resource has the index values of its segments, or is what the column of the resource
        before holds under its key; a resource may also be a whole table or column. */
    ghost predicate RowFits(a: Resource, b: Resource)
      reads a, b
    {
      match b.row
      case None => b.index == []
      case Some(u) =>
        && u in env.db && env.db[u].table == b.table && b.table in env.schema.tables
        && var ts := env.schema.tables[b.table];
        if ts.indexes != [] then
          && |b.index| == |ts.indexes|
          && forall i :: 0 <= i < |ts.indexes| ==>
               ts.indexes[i] in env.db[u].config && IsAtom(env.db[u].config[ts.indexes[i]]) && Str(env.db[u].config[ts.indexes[i]]) == b.index[i]
        else
          && |b.index| == 1
          && a.row.Some? && a.row.value in env.db && a.column.Some? && a.column.value in env.db[a.row.value].refs
          && env.db[a.row.value].refs[a.column.value].Map?
          && b.index[0] in env.db[a.row.value].refs[a.column.value].entries
          && env.db[a.row.value].refs[a.column.value].entries[b.index[0]] == u
    }

    /** From a resource to the next one: by a child column to the table that it holds, or from System to a
        table without a parent. */
    ghost predicate GoesTo(a: Resource, b: Resource)
      reads a, b
    {
      && a.next == b && RowFits(a, b)
      && ((&& a.relation == ToChild && a.column.Some? && a.table in env.schema.tables
           && a.column.value in env.schema.tables[a.table].references
           && env.schema.tables[a.table].references[a.column.value].relation == Child
           && env.schema.tables[a.table].references[a.column.value].refTable == b.table)
          || (&& a.relation == ToTopLevel && a.column == None && a.table == "System"
              && b.table in env.schema.tables && env.schema.tables[b.table].parent == None))
    }

    /** Every resource goes to the next one, and the last one nowhere. */
    ghost predicate Walk(objects: seq<Resource>)
      reads objects
    {
      && objects != []
      && if |objects| == 1 then objects[0].relation == NoRelation && objects[0].column == None && objects[0].next == null
         else GoesTo(objects[0], objects[1]) && Walk(objects[1..])
    }

    /** Finds the row of a resource by as many index values as its table has index columns. */
    method TakeIndex(resource: Resource, path: seq<string>) returns (ok: bool, rest: seq<string>)
      requires Addressable(env) && resource.table in env.schema.tables && env.schema.tables[resource.table].indexes != []
      requires Blank(resource)
      modifies resource
      ensures Blank(resource)
      ensures ok ==> |rest| < |path|
      ensures ok ==> resource.row.Some? && HasIndex(env, resource.row.value, resource.table, resource.index)
      ensures ResolveIndex(env, resource.table, path) ==
              if ok then Resolve(env, resource.table, resource.row, resource.index, rest) else None
    {
      var n := |env.schema.tables[resource.table].indexes|;
      if |path| < n {
        return false, path;
      }
      var row := IndexToRow(path[..n], resource.table);
      if row.None? {
        return false, path;
      }
      resource.row := row;
      resource.index := path[..n];
      return true, path[n..];
    }

    /** Finds the row of a resource by its key in a column of its owner. */
    method TakeKey(resource: Resource, children: map<string, Uuid>, path: seq<string>) returns (ok: bool, rest: seq<string>)
      requires Addressable(env) && resource.table in env.schema.tables && env.schema.tables[resource.table].indexes == []
      requires Blank(resource) && path != []
      modifies resource
      ensures Blank(resource)
      ensures ok ==> |rest| < |path|
      ensures ok ==> |resource.index| == 1 && resource.index[0] in children && resource.row == Some(children[resource.index[0]])
      ensures ResolveChild(env, resource.table, children, path) ==
              if ok then Resolve(env, resource.table, resource.row, resource.index, rest) else None
    {
      if path[0] !in children {
        return false, path;
      }
      resource.row := Some(children[path[0]]);
      resource.index := path[..1];
      return true, path[1..];
    }

    ghost predicate HasRow(r: Resource)
      reads r
    {
      r.row.Some? ==> r.row.value in env.db && env.db[r.row.value].table == r.table
    }

    lemma KeyedRow(t: Name, u: Uuid, c: Name, k: string)
      requires Addressable(env) && u in env.db && env.db[u].table == t && t in env.schema.tables && IsChildColumn(env.schema.tables[t], c)
      requires c in env.db[u].refs && env.db[u].refs[c].Map? && k in env.db[u].refs[c].entries
      ensures var v := env.db[u].refs[c].entries[k]; v in env.db && env.db[v].table == env.schema.tables[t].references[c].refTable
    {
      assert ValidTarget(env.schema, env.db, u, c, env.db[u].refs[c].entries[k]);
    }

    /** Into a child column, and to a row of it if the path goes on. */
    method StepToChild(path: seq<string>, resource: Resource) returns (ok: bool, below: Resource, rest: seq<string>)
      requires Addressable(env) && resource.table in env.schema.tables && Blank(resource) && HasRow(resource) && path != []
      requires IsChildColumn(env.schema.tables[resource.table], path[0])
      modifies resource
      ensures resource.row == old(resource.row) && resource.index == old(resource.index)
      ensures fresh(below) && Blank(below) && below.table in env.schema.tables && resource.next == below
      ensures ok ==> GoesTo(resource, below) && |rest| < |path|
      ensures Resolve(env, resource.table, resource.row, resource.index, path) ==
              if ok then Link(resource.table, resource.row, resource.index, resource.column, resource.relation,
                              Resolve(env, below.table, below.row, below.index, rest))
              else None
    {
      var t, name := resource.table, path[0];
      assert ValidColumn(env.schema, t, name);
      rest := path[1..];
      resource.relation := ToChild;
      resource.column := Some(name);
      below := new Resource(env.schema.tables[t].references[name].refTable);
      resource.next := below;
      if rest == [] {
        ok := true;
      } else if env.schema.tables[below.table].indexes != [] {
        ok, rest := TakeIndex(below, rest);
      } else {
        ok, rest := TakeKey(below, ChildrenOf(env, resource.row, name), rest);
        if ok {
          KeyedRow(t, resource.row.value, name, below.index[0]);
        }
      }
    }

    /** From System to a top-level table, and to a row of it if the path goes on. */
    method StepToTable(path: seq<string>, resource: Resource) returns (ok: bool, below: Resource, rest: seq<string>)
      requires Addressable(env) && resource.table in env.schema.tables && Blank(resource) && path != []
      requires !IsChildColumn(env.schema.tables[resource.table], path[0])
      requires path[0] in env.names.table && resource.table == SYSTEM_TABLE && IsTopLevel(env.schema, env.names.table[path[0]])
      modifies resource
      ensures resource.row == old(resource.row) && resource.index == old(resource.index)
      ensures fresh(below) && Blank(below) && below.table in env.schema.tables && resource.next == below
      ensures ok ==> GoesTo(resource, below) && |rest| < |path|
      ensures Resolve(env, resource.table, resource.row, resource.index, path) ==
              if ok then Link(resource.table, resource.row, resource.index, resource.column, resource.relation,
                              Resolve(env, below.table, below.row, below.index, rest))
              else None
    {
      rest := path[1..];
      resource.relation := ToTopLevel;
      below := new Resource(env.names.table[path[0]]);
      resource.next := below;
      ok := true;
      if rest != [] && env.schema.tables[below.table].indexes != [] {
        ok, rest := TakeIndex(below, rest);
      }
    }

    /** Goes one step down: to a child column or a top-level table, and to a row of it if the path goes on. */
    method Step(path: seq<string>, resource: Resource) returns (ok: bool, below: Resource?, rest: seq<string>)
      requires Addressable(env) && resource.table in env.schema.tables && Blank(resource) && HasRow(resource) && path != []
      modifies resource
      ensures resource.row == old(resource.row) && resource.index == old(resource.index)
      ensures ok ==> below != null && fresh(below) && Blank(below) && HasRow(below) && below.table in env.schema.tables
      ensures ok ==> resource.next == below && |rest| < |path|
      ensures ok ==> GoesTo(resource, below)
      ensures Resolve(env, resource.table, resource.row, resource.index, path) ==
              if ok then Link(resource.table, resource.row, resource.index, resource.column, resource.relation,
                              Resolve(env, below.table, below.row, below.index, rest))
              else None
    {
      var t, name := resource.table, path[0];
      if IsChildColumn(env.schema.tables[t], name) {
        ok, below, rest := StepToChild(path, resource);
      } else if name in env.names.table && t == SYSTEM_TABLE && IsTopLevel(env.schema, env.names.table[name]) {
        ok, below, rest := StepToTable(path, resource);
      } else {
        ok, below, rest := false, null, path;
      }
    }

    /** Parses the rest of a path below `resource` and links up what it leads to. */
    method Parse(path: seq<string>, resource: Resource) returns (ok: bool, ghost objects: seq<Resource>)
      requires Addressable(env) && resource.table in env.schema.tables && Blank(resource) && HasRow(resource)
      modifies resource
      ensures resource.row == old(resource.row) && resource.index == old(resource.index)
      ensures ok <==> Resolve(env, resource.table, resource.row, resource.index, path).Some?
      ensures ok ==> objects != [] && objects[0] == resource && fresh(set i | 1 <= i < |objects| :: objects[i])
      ensures ok ==> Linked(objects, Resolve(env, resource.table, resource.row, resource.index, path).value)
      ensures ok ==> Walk(objects)
      decreases |path|
    {
      objects := [resource];
      if path == [] {
        return true, objects;
      }
      var found, below, rest := Step(path, resource);
      ok := found;
      if found {
        var parsed, others := Parse(rest, below);
        ok, objects := parsed, [resource] + others;
      }
    }

    /** The chain of resources that a URI stands for, if there is one. */
    method ParseUrlPath(uri: string) returns (resource: Resource?, ghost objects: seq<Resource>)
      requires Addressable(env)
      ensures resource == null <==> ParseUri(env, uri).None?
      ensures resource != null ==> objects != [] && objects[0] == resource && Linked(objects, ParseUri(env, uri).value)
      ensures resource != null ==> Walk(objects) && resource.table == "System" && resource.row == Some(env.system) && resource.index == []
      ensures resource != null ==> |uri| >= 9 && uri[..9] == "/rest/v1/" && var path := Escape.UnquoteSplit(uri[9..]); path != [] && path[0] == "system"
    {
      objects := [];
      if !StartsWith(uri, VERSION_PATH) {
        return null, objects;
      }
      var path := Escape.UnquoteSplit(uri[|VERSION_PATH|..]);
      if path == [] || path[0] != SYSTEM_URI {
        return null, objects;
      }
      var system := new Resource(SYSTEM_TABLE);
      system.row := Some(env.system);
      var ok, chain := Parse(path[1..], system);
      resource, objects := if ok then system else null, chain;
    }
  }
}
