/** A configuration that creates a row: the hypotheses of the theorems on writing and reading can be
    met together, by a replica and a configuration that are not trivial. */
module ConfigExample {
  import opened Options
  import opened Database
  import opened Containment
  import opened Deletion
  import opened ConfigTree
  import opened ConfigTarget
  import opened ConfigOutcome
  import opened ConfigRead
  import opened ConfigReading
  import opened ConfigTheorems
  import Escape

  const PORT: Name := "Port"
  const NAME: Name := "name"
  const PORTS: Name := "ports"

  const LABEL: ConfigColumn := ConfigColumn(true, Text(""))

  const SYSTEM_SCHEMA: TableSchema :=
    TableSchema(map[NAME := LABEL], map[PORTS := RefColumn(PORT, Many, Child, true, true)], [], None, true)

  const PORT_SCHEMA: TableSchema := TableSchema(map[NAME := LABEL], map[], [NAME], Some(SYSTEM_TABLE), true)

  /** System contains ports. */
  const SCHEMA: Schema :=
    Schema(map[SYSTEM_TABLE := SYSTEM_SCHEMA, PORT := PORT_SCHEMA], map[SYSTEM_TABLE := 1, PORT := 0])

  const SYSTEM: Uuid := 0
  const FIRST: Uuid := 1

  function SystemRowWith(ports: set<Uuid>): Row {
    Row(SYSTEM_TABLE, map[NAME := Text("s")], map[PORTS := Rows(ports)], false)
  }

  function PortRow(name: string): Row {
    Row(PORT, map[NAME := Text(name)], map[], false)
  }

  /** A replica with one port. */
  const BASE: Db := map[SYSTEM := SystemRowWith({FIRST}), FIRST := PortRow("a")]

  const INDEX_MAP: map<(Name, seq<string>), Uuid> := map[(PORT, ["a"]) := FIRST]

  function PortData(name: string): Data {
    Data(map[NAME := Text(name)], map[], map[])
  }

  /** The configuration asks for another port instead. */
  const ROOT: Root := map[SYSTEM_TABLE := Children(map["" :=
    Data(map[NAME := Text("s")], map[], map[PORTS := Children(map["b" := PortData("b")])])])]

  const JOB: Job := Job(SCHEMA, BASE, INDEX_MAP, SYSTEM, ROOT)

  const AT_SYSTEM: Path := [Step(SYSTEM_TABLE, "")]
  const AT_PORT: Path := [Step(SYSTEM_TABLE, ""), Step(PORTS, "b")]

  lemma SchemaIsValid()
    ensures ValidSchema(SCHEMA)
  {
    assert ValidTable(SCHEMA, SYSTEM_TABLE);
    assert ValidTable(SCHEMA, PORT);
    assert ValidColumn(SCHEMA, SYSTEM_TABLE, PORTS);
  }

  lemma ReplicaIsValid()
    ensures ValidDb(SCHEMA, BASE) && Forest(SCHEMA, BASE)
  {
    assert ValidRow(SCHEMA, BASE[SYSTEM]);
    assert ValidRow(SCHEMA, BASE[FIRST]);
    assert ValidTarget(SCHEMA, BASE, SYSTEM, PORTS, FIRST);
  }

  lemma IndexIsExact()
    ensures IndexExact(JOB)
  {
    assert KeyOf(PORT_SCHEMA, BASE[FIRST].config) == ["a"];
    assert EntryExact(JOB, (PORT, ["a"]));
    assert Escape.IsBytes("a");
    assert RowListed(JOB, FIRST);
  }

  lemma ReplicaInOrder()
    ensures InOrder(JOB)
  {
    SchemaIsValid();
    ReplicaIsValid();
    IndexIsExact();
  }

  lemma Locations(p: Path)
    requires NodeAt(ROOT, p).Some?
    ensures p == AT_SYSTEM || p == AT_PORT
  {
    if |p| == 1 {
      assert p == [Last(p)];
    } else {
      if |p| > 2 {
        Locations(Parent(p));
      }
      assert Parent(p) == AT_SYSTEM;
      assert p == Parent(p) + [Last(p)];
    }
  }

  lemma PortIndex()
    ensures KeyOf(PORT_SCHEMA, PortData("b").config) == ["b"] && CleanKey(["b"])
    ensures Escape.IndexString(["b"]) == "b" && Escape.UnquoteSplit("b") == ["b"]
  {
    assert Escape.IsBytes("b");
    assert Escape.IndexString(["b"]) == "b";
    Escape.IndexStringSplits(["b"]);
  }

  lemma Nodes()
    ensures NodeAt(ROOT, AT_SYSTEM) == Some(ROOT[SYSTEM_TABLE].entries[""]) && NodeAt(ROOT, AT_PORT) == Some(PortData("b"))
    ensures TableAt(SCHEMA, AT_SYSTEM) == SYSTEM_TABLE && TableAt(SCHEMA, AT_PORT) == PORT
    ensures Exist(JOB, AT_SYSTEM) == Some(SYSTEM) && Exist(JOB, AT_PORT) == None
    ensures Live(JOB, AT_SYSTEM) && Live(JOB, AT_PORT)
  {
    PortIndex();
    assert Parent(AT_PORT) == AT_SYSTEM;
  }

  lemma SystemFits()
    ensures NodeAt(ROOT, AT_SYSTEM).Some? && Fits(JOB, AT_SYSTEM)
  {
    Nodes();
  }

  lemma PortFits()
    ensures NodeAt(ROOT, AT_PORT).Some? && Fits(JOB, AT_PORT)
  {
    Nodes();
    PortIndex();
  }

  lemma BothFit(p: Path)
    requires NodeAt(ROOT, p).Some?
    ensures Fits(JOB, p)
  {
    SystemFits();
    PortFits();
    Locations(p);
  }

  lemma BothSettled(p: Path)
    requires Live(JOB, p)
    ensures Settled(JOB, p)
  {
    Locations(p);
    Nodes();
  }

  lemma OneIndexEach(p: Path, q: Path)
    requires SameIndex(JOB, p, q)
    ensures p == q
  {
    Locations(p);
    Locations(q);
    Nodes();
  }

  /** The configuration fits the replica, although it names a row that is not there yet. */
  lemma ExampleIsWellPosed()
    ensures WellPosed(JOB) && IsNew(JOB, AT_PORT)
  {
    ReplicaInOrder();
    Nodes();
    forall p | NodeAt(JOB.root, p).Some?
      ensures Fits(JOB, p)
    {
      BothFit(p);
    }
    forall p | Live(JOB, p)
      ensures Settled(JOB, p)
    {
      BothSettled(p);
    }
    forall p, q | SameIndex(JOB, p, q)
      ensures p == q
    {
      OneIndexEach(p, q);
    }
    assert ValidSystem(JOB);
  }

  lemma Graph()
    ensures ValidGraph(GraphOf(SCHEMA, BASE))
    ensures Removable(GraphOf(SCHEMA, BASE), FIRST)
  {
    ReplicaInOrder();
    GraphIsValid(SCHEMA, BASE);
  }

  lemma BothFilled()
    ensures Filled(SYSTEM_SCHEMA, ROOT[SYSTEM_TABLE].entries[""]) && Filled(PORT_SCHEMA, PortData("b"))
  {
    assert NAME in SYSTEM_SCHEMA.config && NAME in PORT_SCHEMA.config;
    assert NAME in PortData("b").config && NAME in ROOT[SYSTEM_TABLE].entries[""].config;
    assert PORTS in ROOT[SYSTEM_TABLE].entries[""].children && "b" in ROOT[SYSTEM_TABLE].entries[""].children[PORTS].entries;
  }

  lemma BothFaithful(p: Path)
    requires NodeAt(ROOT, p).Some? && ValidGraph(GraphOf(SCHEMA, BASE))
    ensures TableAt(SCHEMA, p) in SCHEMA.tables && Faithful(JOB, p)
  {
    Locations(p);
    Nodes();
    Graph();
    BothFilled();
  }

  lemma AllFaithful()
    ensures ValidGraph(GraphOf(SCHEMA, BASE)) && Complete(JOB)
  {
    Graph();
    Nodes();
    forall p | NodeAt(JOB.root, p).Some?
      ensures Made(JOB, p) && TableAt(SCHEMA, p) in SCHEMA.tables && Faithful(JOB, p) && DataAt(JOB, p).refs == map[]
    {
      Locations(p);
      BothFaithful(p);
    }
    assert TopAccounted(JOB, SYSTEM);
  }

  lemma NothingBeside()
    ensures KeptApart(JOB)
  {
    Nodes();
    forall p, c | Live(JOB, p) && c in ChildColumns(JOB, p)
      ensures NoneBeside(JOB, p, c)
    {
      Locations(p);
    }
  }

  /** It meets all that reading back asks for; the port that it does not name goes. */
  lemma ExampleIsComplete()
    ensures ValidGraph(GraphOf(SCHEMA, BASE))
    ensures WellPosed(JOB) && Complete(JOB) && KeptApart(JOB) && Listable(JOB, map[])
    ensures JOB.root == RootOf(Config(ROOT[SYSTEM_TABLE].entries[""], map[]))
  {
    ExampleIsWellPosed();
    AllFaithful();
    NothingBeside();
  }

  lemma PortKey()
    ensures IndexAt(SCHEMA, BASE, FIRST) == "a"
  {
    assert KeyOf(PORT_SCHEMA, BASE[FIRST].config) == ["a"];
    assert Escape.IndexString(["a"]) == "a";
  }

  lemma PortReads()
    requires ValidSchema(SCHEMA)
    ensures ReadRow(SCHEMA, BASE, PORT, FIRST) == Some(PortData("a"))
    ensures IndexAt(SCHEMA, BASE, FIRST) == "a"
  {
    PortKey();
    assert ReadConfig(PORT_SCHEMA, BASE[FIRST].config) == map[NAME := Text("a")];
  }

  const SYSTEM_DATA: Data := Data(map[NAME := Text("s")], map[], map[PORTS := Children(map["a" := PortData("a")])])

  lemma PortsRead()
    requires ValidSchema(SCHEMA)
    ensures ReadChildren(SCHEMA, BASE, SYSTEM_TABLE, PORTS, Rows({FIRST})) == map["a" := PortData("a")]
  {
    PortReads();
    var place := map["a" := FIRST];
    assert place["a"] in place.Values;
    ReadListIs(SCHEMA, BASE, SYSTEM_TABLE, PORTS, {FIRST}, map["a" := PortData("a")], place);
  }

  lemma ColumnsRead(refs: map<Name, RefValue>)
    requires ValidSchema(SCHEMA) && refs == BASE[SYSTEM].refs
    ensures ReadColumns(SCHEMA, BASE, SYSTEM_TABLE, refs) == SYSTEM_DATA.children
    ensures ReadRefs(SCHEMA, BASE, SYSTEM_SCHEMA, refs) == map[]
  {
    PortsRead();
    var entries := map["a" := PortData("a")];
    assert "a" in entries && entries != map[];
  }

  lemma SystemReads()
    requires ValidSchema(SCHEMA)
    ensures ReadRow(SCHEMA, BASE, SYSTEM_TABLE, SYSTEM) == Some(SYSTEM_DATA)
    ensures IndexAt(SCHEMA, BASE, SYSTEM) == ""
  {
    var row := BASE[SYSTEM];
    ColumnsRead(row.refs);
    assert ReadConfig(SYSTEM_SCHEMA, row.config) == map[NAME := Text("s")];
    assert NAME in SYSTEM_SCHEMA.config && HasConfigCategory(SYSTEM_SCHEMA);
    assert NAME in SYSTEM_DATA.config && SYSTEM_DATA != EMPTY_DATA;
    assert SCHEMA.tables[SYSTEM_TABLE] == SYSTEM_SCHEMA && !Hidden(row);
  }

  lemma TableReads()
    requires ValidSchema(SCHEMA)
    ensures ReadTable(SCHEMA, BASE, SYSTEM_TABLE) == map["" := SYSTEM_DATA]
  {
    SystemReads();
    var entries, place := map["" := SYSTEM_DATA], map["" := SYSTEM];
    assert place[""] in place.Values;
    assert RowsIn(BASE, SYSTEM_TABLE) == {SYSTEM};
    ReadTableIs(SCHEMA, BASE, SYSTEM_TABLE, entries, place);
  }

  lemma RootReads()
    requires ValidSchema(SCHEMA)
    ensures ReadRoot(SCHEMA, BASE) == map[SYSTEM_TABLE := Children(map["" := SYSTEM_DATA])]
  {
    TableReads();
    assert IsTopLevel(SCHEMA, SYSTEM_TABLE) && !IsTopLevel(SCHEMA, PORT);
    var entries := map["" := SYSTEM_DATA];
    assert "" in entries && entries != map[];
    RootIs(SCHEMA, BASE, map[SYSTEM_TABLE := Children(entries)]);
  }

  lemma RootDoesNotMatter(root: Root)
    ensures InOrder(JOB.(root := root))
  {
    ReplicaInOrder();
    var j := JOB.(root := root);
    forall e | e in j.indexMap
      ensures EntryExact(j, e)
    {
      assert EntryExact(JOB, e);
    }
    forall u | Indexed(j.schema, j.base, u)
      ensures RowListed(j, u)
    {
      assert RowListed(JOB, u);
    }
  }

  /** The replica itself reads as a configuration, which can be written back. */
  lemma ExampleReads()
    ensures ValidSchema(SCHEMA) && ReadAll(SCHEMA, BASE) == Some(Config(SYSTEM_DATA, map[]))
    ensures IsReading(JOB.(root := ReadRoot(SCHEMA, BASE)))
  {
    SchemaIsValid();
    RootReads();
    var root := ReadRoot(SCHEMA, BASE);
    RootDoesNotMatter(root);
    assert root - {SYSTEM_TABLE} == map[];
  }
}
