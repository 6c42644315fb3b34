/** Small replicas and configurations for which the code does not do what declarative configuration
    promises. */
module ConfigLosses {
  import opened Options
  import opened Database
  import opened Containment
  import opened Deletion
  import opened ConfigTree
  import opened ConfigTarget
  import opened ConfigOutcome
  import opened ConfigRead
  import opened ConfigReading
  import opened ConfigReader
  import opened ConfigSources
  import opened ConfigTheorems
  import opened ConfigUnchanged
  import opened ConfigIdle
  import opened ConfigMisread
  import opened ConfigLaws
  import opened ConfigSession
  import opened Validation
  import opened ConfigRefs
  import opened ConfigTables
  import opened ConfigExample

  const VLANS: Name := "vlans"

  const VLAN_OWNER: TableSchema :=
    TableSchema(map[NAME := LABEL], map[VLANS := RefColumn(VLAN_TABLE, Keyed, Child, true, true)], [], None, true)

  /** System contains VLANs by key; `mutable` says whether VLANs may be deleted. */
  function VlanSchema(mutable: bool): Schema {
    Schema(map[SYSTEM_TABLE := VLAN_OWNER, VLAN_TABLE := TableSchema(map[NAME := LABEL], map[], [], Some(SYSTEM_TABLE), mutable)],
           map[SYSTEM_TABLE := 1, VLAN_TABLE := 0])
  }

  const HIDDEN: Uuid := 1

  /** The only VLAN is for internal use, so it does not show. */
  const VLAN_BASE: Db := map[
    SYSTEM := Row(SYSTEM_TABLE, map[NAME := Text("s")], map[VLANS := Map(map["a" := HIDDEN])], false),
    HIDDEN := Row(VLAN_TABLE, map[NAME := Text("x")], map[], true)]

  function VlanJob(mutable: bool, root: Root): Job {
    Job(VlanSchema(mutable), VLAN_BASE, map[], SYSTEM, root)
  }

  lemma VlanSchemaIsValid(mutable: bool)
    ensures ValidSchema(VlanSchema(mutable))
  {
    var s := VlanSchema(mutable);
    assert ValidTable(s, SYSTEM_TABLE);
    assert ValidTable(s, VLAN_TABLE);
    assert ValidColumn(s, SYSTEM_TABLE, VLANS);
  }

  lemma HiddenIsChild(mutable: bool)
    ensures Targets(VLAN_BASE[SYSTEM].refs[VLANS]) == {HIDDEN}
    ensures IsChildOf(VlanSchema(mutable), VLAN_BASE, SYSTEM, VLANS, HIDDEN)
  {
    var entries := VLAN_BASE[SYSTEM].refs[VLANS].entries;
    assert entries["a"] in entries.Values;
  }

  lemma VlanRowsAreValid(mutable: bool)
    ensures forall u :: u in VLAN_BASE ==> ValidRow(VlanSchema(mutable), VLAN_BASE[u])
  {
    var s := VlanSchema(mutable);
    assert ValidRow(s, VLAN_BASE[SYSTEM]);
    assert ValidRow(s, VLAN_BASE[HIDDEN]);
  }

  lemma OnlyChild(mutable: bool, u: Uuid, c: Name, v: Uuid)
    requires u in VLAN_BASE && c in VLAN_BASE[u].refs && v in Targets(VLAN_BASE[u].refs[c])
    ensures u == SYSTEM && c == VLANS && v == HIDDEN
  {
    HiddenIsChild(mutable);
  }

  lemma VlanDbIsValid(mutable: bool)
    ensures ValidDb(VlanSchema(mutable), VLAN_BASE) && Forest(VlanSchema(mutable), VLAN_BASE)
  {
    var s := VlanSchema(mutable);
    VlanRowsAreValid(mutable);
    assert ValidTarget(s, VLAN_BASE, SYSTEM, VLANS, HIDDEN);
    forall u, c, v | u in VLAN_BASE && c in VLAN_BASE[u].refs && v in Targets(VLAN_BASE[u].refs[c])
      ensures u == SYSTEM && c == VLANS && v == HIDDEN
    {
      OnlyChild(mutable, u, c, v);
    }
    assert VLAN_BASE[SYSTEM].refs[VLANS].entries.Keys == {"a"};
  }

  lemma VlansInOrder(mutable: bool, root: Root)
    ensures InOrder(VlanJob(mutable, root))
  {
    VlanSchemaIsValid(mutable);
    VlanDbIsValid(mutable);
    var j := VlanJob(mutable, root);
    forall u | Indexed(j.schema, j.base, u)
      ensures false
    {
    }
  }

  lemma VlanGraph(mutable: bool)
    ensures var g := GraphOf(VlanSchema(mutable), VLAN_BASE);
            && ValidGraph(g)
            && g.kids[HIDDEN] == {}
            && (HIDDEN in g.deletable <==> mutable)
  {
    VlanSchemaIsValid(mutable);
    VlanDbIsValid(mutable);
    GraphIsValid(VlanSchema(mutable), VLAN_BASE);
  }

  // ---------- writing back what was read ----------

  const SHOWN: Data := Data(map[NAME := Text("s")], map[], map[])

  lemma HiddenVlan(mutable: bool)
    requires ValidSchema(VlanSchema(mutable))
    ensures ReadRow(VlanSchema(mutable), VLAN_BASE, SYSTEM_TABLE, SYSTEM) == Some(SHOWN)
    ensures IndexAt(VlanSchema(mutable), VLAN_BASE, SYSTEM) == ""
  {
    var s, row := VlanSchema(mutable), VLAN_BASE[SYSTEM];
    assert ReadRow(s, VLAN_BASE, VLAN_TABLE, HIDDEN) == None;
    ReadKeyedIs(s, VLAN_BASE, SYSTEM_TABLE, VLANS, map["a" := HIDDEN], map[]);
    assert ReadColumns(s, VLAN_BASE, SYSTEM_TABLE, row.refs) == map[];
    assert ReadRefs(s, VLAN_BASE, VLAN_OWNER, row.refs) == map[];
    assert ReadConfig(VLAN_OWNER, row.config) == map[NAME := Text("s")];
    assert NAME in VLAN_OWNER.config && HasConfigCategory(VLAN_OWNER);
    assert NAME in SHOWN.config && SHOWN != EMPTY_DATA;
    assert s.tables[SYSTEM_TABLE] == VLAN_OWNER && !Hidden(row);
  }

  const SHOWN_ROOT: Root := map[SYSTEM_TABLE := Children(map["" := SHOWN])]

  lemma VlanRootReads(mutable: bool)
    requires ValidSchema(VlanSchema(mutable))
    ensures ReadRoot(VlanSchema(mutable), VLAN_BASE) == SHOWN_ROOT
  {
    var s, entries, place := VlanSchema(mutable), map["" := SHOWN], map["" := SYSTEM];
    HiddenVlan(mutable);
    assert place[""] in place.Values;
    assert RowsIn(VLAN_BASE, SYSTEM_TABLE) == {SYSTEM};
    ReadTableIs(s, VLAN_BASE, SYSTEM_TABLE, entries, place);
    assert IsTopLevel(s, SYSTEM_TABLE) && !IsTopLevel(s, VLAN_TABLE);
    assert "" in entries && entries != map[];
    RootIs(s, VLAN_BASE, SHOWN_ROOT);
  }

  lemma OnlySystem(p: Path)
    requires NodeAt(SHOWN_ROOT, p).Some?
    ensures p == AT_SYSTEM
  {
    if |p| == 1 {
      assert p == [Last(p)];
    } else {
      OnlySystem(Parent(p));
    }
  }

  lemma HiddenIsUnread(j: Job)
    requires j == VlanJob(true, SHOWN_ROOT)
    ensures Unread(j, HIDDEN)
  {
    assert NodeAt(SHOWN_ROOT, AT_SYSTEM).Some?;
    assert IsOld(j, AT_SYSTEM, SYSTEM);
    forall p | IsOld(j, p, HIDDEN)
      ensures false
    {
      OnlySystem(p);
    }
    HiddenIsChild(true);
    assert Claimed(j, SYSTEM);
  }

  /** Writing back what was read deletes the VLAN that did not show. */
  lemma WritingBackDeletes()
    ensures var j := VlanJob(true, SHOWN_ROOT);
            IsReading(j) && ValidGraph(GraphOf(j.schema, j.base)) && Unread(j, HIDDEN) && !Quiet(j)
  {
    var j := VlanJob(true, SHOWN_ROOT);
    VlansInOrder(true, SHOWN_ROOT);
    VlanRootReads(true);
    VlanGraph(true);
    HiddenIsUnread(j);
    assert HIDDEN in PlanSet(GraphOf(j.schema, j.base), HIDDEN);
  }

  // ---------- reading what was written ----------

  const NAMED: Data := Data(map[NAME := Text("y")], map[], map[])

  /** A configuration that names another VLAN, under another key. */
  const NAMED_ROOT: Root := map[SYSTEM_TABLE := Children(map["" :=
    Data(map[NAME := Text("s")], map[], map[VLANS := Children(map["b" := NAMED])])])]

  const AT_VLAN: Path := [Step(SYSTEM_TABLE, ""), Step(VLANS, "b")]

  lemma VlanLocations(p: Path)
    requires NodeAt(NAMED_ROOT, p).Some?
    ensures p == AT_SYSTEM || p == AT_VLAN
  {
    if |p| == 1 {
      assert p == [Last(p)];
    } else {
      if |p| > 2 {
        VlanLocations(Parent(p));
      }
      assert Parent(p) == AT_SYSTEM;
      assert p == Parent(p) + [Last(p)];
    }
  }

  lemma VlanNodes()
    ensures var j := VlanJob(false, NAMED_ROOT);
            && NodeAt(NAMED_ROOT, AT_SYSTEM) == Some(NAMED_ROOT[SYSTEM_TABLE].entries[""]) && NodeAt(NAMED_ROOT, AT_VLAN) == Some(NAMED)
            && TableAt(j.schema, AT_SYSTEM) == SYSTEM_TABLE && TableAt(j.schema, AT_VLAN) == VLAN_TABLE
            && Exist(j, AT_SYSTEM) == Some(SYSTEM) && Exist(j, AT_VLAN) == None
            && Live(j, AT_SYSTEM) && Live(j, AT_VLAN)
  {
    assert Parent(AT_VLAN) == AT_SYSTEM;
  }

  lemma VlansFit(p: Path)
    requires NodeAt(NAMED_ROOT, p).Some?
    ensures Fits(VlanJob(false, NAMED_ROOT), p)
  {
    VlanLocations(p);
    VlanNodes();
  }

  lemma NamedIsWellPosed()
    ensures WellPosed(VlanJob(false, NAMED_ROOT))
  {
    var j := VlanJob(false, NAMED_ROOT);
    VlansInOrder(false, NAMED_ROOT);
    VlanNodes();
    forall p | NodeAt(j.root, p).Some?
      ensures Fits(j, p)
    {
      VlansFit(p);
    }
    forall p | Live(j, p)
      ensures Settled(j, p)
    {
      VlanLocations(p);
    }
    forall p, q | SameIndex(j, p, q)
      ensures p == q
    {
      VlanLocations(p);
      VlanLocations(q);
    }
    assert ValidSystem(j);
  }

  lemma VlansFilled()
    ensures Filled(VLAN_OWNER, NAMED_ROOT[SYSTEM_TABLE].entries[""]) && Filled(VlanSchema(false).tables[VLAN_TABLE], NAMED)
  {
    assert NAME in VLAN_OWNER.config && NAME in VlanSchema(false).tables[VLAN_TABLE].config;
    assert NAME in NAMED.config && NAME in NAMED_ROOT[SYSTEM_TABLE].entries[""].config;
    assert VLANS in NAMED_ROOT[SYSTEM_TABLE].entries[""].children && "b" in NAMED_ROOT[SYSTEM_TABLE].entries[""].children[VLANS].entries;
  }

  lemma VlansFaithful(p: Path)
    requires NodeAt(NAMED_ROOT, p).Some?
    ensures var j := VlanJob(false, NAMED_ROOT); TableAt(j.schema, p) in j.schema.tables && Faithful(j, p)
  {
    VlanLocations(p);
    VlanNodes();
    VlansFilled();
  }

  lemma NamedIsComplete()
    ensures var j := VlanJob(false, NAMED_ROOT); ValidGraph(GraphOf(j.schema, j.base)) && Complete(j)
  {
    var j := VlanJob(false, NAMED_ROOT);
    VlanGraph(false);
    VlanNodes();
    forall p | NodeAt(j.root, p).Some?
      ensures Made(j, p) && TableAt(j.schema, p) in j.schema.tables && Faithful(j, p) && DataAt(j, p).refs == map[]
    {
      VlanLocations(p);
      VlansFaithful(p);
    }
    assert TopAccounted(j, SYSTEM);
  }

  /** The configuration is well posed and complete, but it keeps the hidden VLAN beside the named one: when
      the dictionary lists the hidden one first, the named one is read under the key of the hidden one. */
  lemma ReadingBackLosesKey()
    ensures var j := VlanJob(false, NAMED_ROOT);
            WellPosed(j) && ValidGraph(GraphOf(j.schema, j.base)) && Complete(j) && !KeptApart(j)
    ensures AsCoded(["a", "b"], [None, Some(NAMED)]) == map["a" := NAMED]
  {
    var j := VlanJob(false, NAMED_ROOT);
    NamedIsWellPosed();
    NamedIsComplete();
    VlanNodes();
    VlanGraph(false);
    assert OldColumn(j, AT_SYSTEM, VLANS) == Map(map["a" := HIDDEN]);
    assert "b" in KeysAt(j, AT_SYSTEM, VLANS) && "a" !in KeysAt(j, AT_SYSTEM, VLANS);
    assert Kept(GraphOf(j.schema, j.base), HIDDEN);
    assert !NoneBeside(j, AT_SYSTEM, VLANS);
    KeyIsLost("a", "b", NAMED);
  }

  // ---------- writing back what was misread ----------

  const VISIBLE: Uuid := 2

  /** A VLAN for internal use and one that shows, neither of which may be deleted. */
  function TwoVlans(hidden: string): Db {
    map[SYSTEM := Row(SYSTEM_TABLE, map[NAME := Text("s")], map[VLANS := Map(map["a" := HIDDEN, "b" := VISIBLE])], false),
        HIDDEN := Row(VLAN_TABLE, map[NAME := Text(hidden)], map[], true),
        VISIBLE := Row(VLAN_TABLE, map[NAME := Text("y")], map[], false)]
  }

  function TwoJob(hidden: string, root: Root): Job {
    Job(VlanSchema(false), TwoVlans(hidden), map[], SYSTEM, root)
  }

  lemma VlanLink(hidden: string, u: Uuid, c: Name, v: Uuid)
    requires u in TwoVlans(hidden) && c in TwoVlans(hidden)[u].refs
    ensures v in Targets(TwoVlans(hidden)[u].refs[c]) <==> u == SYSTEM && c == VLANS && (v == HIDDEN || v == VISIBLE)
  {
    var entries := TwoVlans(hidden)[SYSTEM].refs[VLANS].entries;
    assert entries["a"] in entries.Values && entries["b"] in entries.Values;
  }

  lemma TwoRowsAreValid(hidden: string)
    ensures forall u :: u in TwoVlans(hidden) ==> ValidRow(VlanSchema(false), TwoVlans(hidden)[u])
  {
    var s, db := VlanSchema(false), TwoVlans(hidden);
    assert ValidRow(s, db[SYSTEM]);
    assert ValidRow(s, db[HIDDEN]);
    assert ValidRow(s, db[VISIBLE]);
  }

  lemma TwoVlansAreValid(hidden: string)
    ensures ValidDb(VlanSchema(false), TwoVlans(hidden))
  {
    var s, db := VlanSchema(false), TwoVlans(hidden);
    TwoRowsAreValid(hidden);
    forall u, c, v | u in db && c in db[u].refs && v in Targets(db[u].refs[c])
      ensures ValidTarget(s, db, u, c, v)
    {
      VlanLink(hidden, u, c, v);
    }
  }

  lemma TwoVlansAreForest(hidden: string)
    ensures Forest(VlanSchema(false), TwoVlans(hidden))
  {
    var db := TwoVlans(hidden);
    forall u, c, v | u in db && c in db[u].refs && v in Targets(db[u].refs[c])
      ensures u == SYSTEM && c == VLANS
    {
      VlanLink(hidden, u, c, v);
    }
    assert db[SYSTEM].refs.Keys == {VLANS} && db[HIDDEN].refs == map[] && db[VISIBLE].refs == map[];
    assert db[SYSTEM].refs[VLANS].entries.Keys == {"a", "b"};
  }

  lemma TwoInOrder(hidden: string, root: Root)
    ensures InOrder(TwoJob(hidden, root))
  {
    VlanSchemaIsValid(false);
    TwoVlansAreValid(hidden);
    TwoVlansAreForest(hidden);
    var j := TwoJob(hidden, root);
    forall u | Indexed(j.schema, j.base, u)
      ensures false
    {
    }
  }

  lemma TwoGraph(hidden: string)
    ensures var g := GraphOf(VlanSchema(false), TwoVlans(hidden));
            && ValidGraph(g) && HIDDEN !in g.deletable && VISIBLE !in g.deletable
            && SYSTEM in g.kids && g.kids[SYSTEM] == {HIDDEN, VISIBLE}
            && g.deletable <= {SYSTEM}
  {
    VlanSchemaIsValid(false);
    TwoVlansAreValid(hidden);
    GraphIsValid(VlanSchema(false), TwoVlans(hidden));
    VlanLink(hidden, SYSTEM, VLANS, HIDDEN);
    VlanLink(hidden, SYSTEM, VLANS, VISIBLE);
    assert IsChildColumn(VlanSchema(false).tables[SYSTEM_TABLE], VLANS);
    forall v | v in GraphOf(VlanSchema(false), TwoVlans(hidden)).kids[SYSTEM]
      ensures v in {HIDDEN, VISIBLE}
    {
      var c := KidsAreChildren(VlanSchema(false), TwoVlans(hidden), SYSTEM, v);
      VlanLink(hidden, SYSTEM, c, v);
    }
  }

  /** Nothing can be deleted, whatever was read. */
  lemma TwoAreQuiet(hidden: string, root: Root)
    ensures var j := TwoJob(hidden, root); ValidGraph(GraphOf(j.schema, j.base)) && Quiet(j)
  {
    var j := TwoJob(hidden, root);
    TwoGraph(hidden);
    var g := GraphOf(j.schema, j.base);
    assert !Removable(g, SYSTEM);
    assert PlanSet(g, SYSTEM) == {};
  }

  /** The VLAN that shows, under the key of the one that does not. */
  const MISREAD: Config := Config(Data(map[NAME := Text("s")], map[], map[VLANS := Children(map["a" := NAMED])]), map[])

  lemma VlansRead(hidden: string)
    requires ValidSchema(VlanSchema(false))
    ensures var s, db := VlanSchema(false), TwoVlans(hidden);
            && MayRead(s, db, VLAN_TABLE, HIDDEN, None) && MayRead(s, db, VLAN_TABLE, VISIBLE, Some(NAMED))
            && ReadRow(s, db, VLAN_TABLE, HIDDEN).None? && ReadRow(s, db, VLAN_TABLE, VISIBLE) == Some(NAMED)
  {
    var s, db := VlanSchema(false), TwoVlans(hidden);
    assert NAME in s.tables[VLAN_TABLE].config && HasConfigCategory(s.tables[VLAN_TABLE]);
    assert ReadConfig(s.tables[VLAN_TABLE], db[VISIBLE].config) == NAMED.config;
    assert ReadRefs(s, db, s.tables[VLAN_TABLE], db[VISIBLE].refs) == map[];
    assert ReadColumns(s, db, VLAN_TABLE, db[VISIBLE].refs) == map[];
    assert NAME in NAMED.config && NAMED != EMPTY_DATA;
  }

  /** Of two children of which the first does not show, the second takes the key. */
  lemma MayTakeKey(s: Schema, db: Db, t: Name, u: Uuid, v: Uuid, d: Data)
    requires ValidSchema(s) && MayRead(s, db, t, u, None) && MayRead(s, db, t, v, Some(d))
    ensures MayReadEntries(s, db, t, map["a" := u, "b" := v], map["a" := d])
  {
    var none: Option<Data> := None;
    var keys, data := ["a", "b"], [none, Some(d)];
    assert EachKeyRead(s, db, t, map["a" := u, "b" := v], keys, data);
    KeyIsLost("a", "b", d);
  }

  lemma VlansMisread(hidden: string)
    requires ValidSchema(VlanSchema(false))
    ensures MayReadColumn(VlanSchema(false), TwoVlans(hidden), SYSTEM_TABLE, VLANS, Map(map["a" := HIDDEN, "b" := VISIBLE]), map["a" := NAMED])
  {
    VlansRead(hidden);
    MayTakeKey(VlanSchema(false), TwoVlans(hidden), VLAN_TABLE, HIDDEN, VISIBLE, NAMED);
  }

  lemma SystemColumns(hidden: string)
    ensures ReadConfig(VLAN_OWNER, TwoVlans(hidden)[SYSTEM].config) == MISREAD.system.config
    ensures ReadRefs(VlanSchema(false), TwoVlans(hidden), VLAN_OWNER, TwoVlans(hidden)[SYSTEM].refs) == map[]
    ensures Entered(VlanSchema(false), TwoVlans(hidden), SYSTEM_TABLE, SYSTEM)
  {
    assert NAME in VLAN_OWNER.config && HasConfigCategory(VLAN_OWNER);
  }

  lemma SystemMisread(hidden: string)
    requires ValidSchema(VlanSchema(false))
    ensures MayRead(VlanSchema(false), TwoVlans(hidden), SYSTEM_TABLE, SYSTEM, Some(MISREAD.system))
  {
    VlansMisread(hidden);
    SystemColumns(hidden);
    var d := MISREAD.system;
    assert d.children.Keys == {VLANS} && "a" in d.children[VLANS].entries;
    assert NAME in d.config && d != EMPTY_DATA;
  }

  lemma OneRowMayBeRead(s: Schema, db: Db, t: Name, u: Uuid, d: Data)
    requires ValidSchema(s) && MayRead(s, db, t, u, Some(d))
    ensures MayReadRows(s, db, t, {u}, map[IndexAt(s, db, u) := d])
  {
    var order, data := [u], [Some(d)];
    assert Lines(order, {u}) && EachRead(s, db, t, order, data);
    assert data[..0] == [] && Collected(s, db, order[..0], data[..0]) == map[];
    assert Collected(s, db, order, data) == map[IndexAt(s, db, u) := d];
  }

  const MISREAD_ROOT: Root := map[SYSTEM_TABLE := Children(map["" := MISREAD.system])]

  lemma OneTableMayBeRead(s: Schema, db: Db, t: Name, entries: map<string, Data>)
    requires ValidSchema(s) && (forall b :: IsTopLevel(s, b) <==> b == t)
    requires MayReadRows(s, db, t, RowsIn(db, t), entries) && entries != map[]
    ensures MayReadRoot(s, db, map[t := Children(entries)])
  {
  }

  lemma SystemAlone(hidden: string)
    ensures RowsIn(TwoVlans(hidden), SYSTEM_TABLE) == {SYSTEM} && IndexAt(VlanSchema(false), TwoVlans(hidden), SYSTEM) == ""
    ensures forall t :: IsTopLevel(VlanSchema(false), t) <==> t == SYSTEM_TABLE
  {
  }

  lemma MayBeMisread(hidden: string)
    requires ValidSchema(VlanSchema(false))
    ensures MayReadRoot(VlanSchema(false), TwoVlans(hidden), MISREAD_ROOT)
  {
    SystemMisread(hidden);
    SystemAlone(hidden);
    OneRowMayBeRead(VlanSchema(false), TwoVlans(hidden), SYSTEM_TABLE, SYSTEM, MISREAD.system);
    var entries := map["" := MISREAD.system];
    assert "" in entries;
    OneTableMayBeRead(VlanSchema(false), TwoVlans(hidden), SYSTEM_TABLE, entries);
  }

  const AT_A: Path := [Step(SYSTEM_TABLE, ""), Step(VLANS, "a")]

  lemma HiddenIsChanged()
    ensures var j := TwoJob("x", MISREAD_ROOT); IsOld(j, AT_A, HIDDEN) && Changed(j, AT_A)
  {
    var j := TwoJob("x", MISREAD_ROOT);
    assert Parent(AT_A) == AT_SYSTEM;
    assert NodeAt(j.root, AT_SYSTEM) == Some(MISREAD.system) && NodeAt(j.root, AT_A) == Some(NAMED);
    assert TableAt(j.schema, AT_SYSTEM) == SYSTEM_TABLE && TableAt(j.schema, AT_A) == VLAN_TABLE;
    assert Exist(j, AT_SYSTEM) == Some(SYSTEM) && Exist(j, AT_A) == Some(HIDDEN);
    assert StartRow(j, AT_A).config[NAME] == Text("y");
    assert j.base[HIDDEN].config[NAME] == Text("x");
  }

  lemma MisreadIsReading(hidden: string)
    ensures ValidSchema(VlanSchema(false)) && RootOf(MISREAD) == MISREAD_ROOT
    ensures MayReadAll(VlanSchema(false), TwoVlans(hidden), Some(MISREAD))
  {
    VlanSchemaIsValid(false);
    MayBeMisread(hidden);
    assert RootOf(MISREAD) == MISREAD_ROOT;
  }

  lemma MisreadCanBeWritten()
    ensures var j := TwoJob("x", MISREAD_ROOT); InOrder(j) && MayReadAll(j.schema, j.base, Some(MISREAD)) && WellPosed(j)
  {
    TwoInOrder("x", MISREAD_ROOT);
    MisreadIsReading("x");
    NoReadingMovesRows(TwoJob("x", MISREAD_ROOT));
  }

  /** Reading may mistake the hidden VLAN for the other one, and writing that back changes it, although
      nothing can be deleted. */
  lemma MisreadingChanges()
    ensures ValidSchema(VlanSchema(false)) && RootOf(MISREAD) == MISREAD_ROOT
    ensures var j := TwoJob("x", MISREAD_ROOT);
            && InOrder(j) && MayReadAll(j.schema, j.base, Some(MISREAD)) && WellPosed(j)
            && IsOld(j, AT_A, HIDDEN) && Changed(j, AT_A)
    ensures forall root :: var j := TwoJob("x", root); ValidGraph(GraphOf(j.schema, j.base)) && Quiet(j)
  {
    forall root
      ensures var j := TwoJob("x", root); ValidGraph(GraphOf(j.schema, j.base)) && Quiet(j)
    {
      TwoAreQuiet("x", root);
    }
    MisreadIsReading("x");
    MisreadCanBeWritten();
    HiddenIsChanged();
  }

  // ---------- rows that look alike ----------

  lemma VlanLists()
    ensures ListsInIndexed(VlanSchema(false))
  {
  }

  lemma KeysRead(s: Schema, db: Db, t: Name, entries: map<string, Uuid>, children: map<string, Data>, k: string)
    requires ValidSchema(s) && MayReadEntries(s, db, t, entries, children) && k in children
    ensures k in entries
  {
    var keys: seq<string>, data: seq<Option<Data>> :| EachKeyRead(s, db, t, entries, keys, data) && children == AsCoded(keys, data);
    CodedKeys(keys, data);
  }

  /** Beside System, what is read is what shows of the VLANs. */
  lemma SourceBelow(j: Job, p: Path)
    requires j == TwoJob("y", j.root) && MayBeRead(j) && NodeAt(j.root, p).Some? && |p| > 1
    ensures SourceOf(j, p) == Some(VISIBLE) && SourceOf(j, Parent(p)) == Some(SYSTEM) && Last(p).column == VLANS
  {
    var u := SourceAt(j, p);
    var w := SourceOf(j, Parent(p)).value;
    VlanLink("y", w, Last(p).column, u);
    VlansRead("y");
  }

  lemma NoDeeper(j: Job, p: Path)
    requires j == TwoJob("y", j.root) && MayBeRead(j) && NodeAt(j.root, p).Some? && |p| > 1
    ensures |p| == 2 && TableAt(j.schema, p) == VLAN_TABLE && DataAt(j, p).config == ReadConfig(j.schema.tables[VLAN_TABLE], j.base[VISIBLE].config)
  {
    SourceBelow(j, p);
    var u := SourceAt(j, p);
  }

  lemma VlanAt(j: Job, p: Path)
    requires j == TwoJob("y", j.root) && MayBeRead(j) && NodeAt(j.root, p).Some? && |p| > 1
    ensures Exist(j, p) == Some(HIDDEN) || Exist(j, p) == Some(VISIBLE)
  {
    NoDeeper(j, p);
    VlanKey(j, p);
    var entries := j.base[SYSTEM].refs[VLANS].entries;
    assert Exist(j, Parent(p)) == Some(SYSTEM);
    assert Exist(j, p) == Some(entries[Last(p).key]);
  }

  lemma VlanKey(j: Job, p: Path)
    requires j == TwoJob("y", j.root) && MayBeRead(j) && NodeAt(j.root, p).Some? && |p| > 1
    ensures Last(p).column == VLANS && Last(p).key in j.base[SYSTEM].refs[VLANS].entries && IsKeyed(j.schema, p)
  {
    SourceBelow(j, p);
    var w := SourceAt(j, Parent(p));
    ColumnBelow(j, p, w);
    KeysRead(j.schema, j.base, VLAN_TABLE, j.base[SYSTEM].refs[VLANS].entries, EntriesBelow(j.root, Parent(p), VLANS), Last(p).key);
  }

  lemma VlanAtRest(j: Job, refList: RefList, p: Path)
    requires j == TwoJob("y", j.root) && MayBeRead(j) && Live(j, p) && |p| > 1
    ensures AtRest(j, refList, p)
  {
    VlanAt(j, p);
    NoDeeper(j, p);
    var ts := j.schema.tables[VLAN_TABLE];
    assert j.base[HIDDEN].config == j.base[VISIBLE].config;
    ConfigUnchanged.ConfigUnchanged(ts, j.base[VISIBLE].config);
    assert ts.references == map[];
  }

  lemma SystemAtRest(j: Job, refList: RefList, p: Path)
    requires j == TwoJob("y", j.root) && MayBeRead(j) && Live(j, p) && |p| == 1
    ensures AtRest(j, refList, p)
  {
    var u := SourceAt(j, p);
    assert Exist(j, p) == Some(u) && u == SYSTEM;
    assert j.schema.tables[SYSTEM_TABLE] == VLAN_OWNER && WrittenColumns(j, p) == {};
    ConfigUnchanged.ConfigUnchanged(VLAN_OWNER, j.base[SYSTEM].config);
  }

  lemma TwoHoldFast(j: Job)
    requires j == TwoJob("y", j.root) && ValidGraph(GraphOf(j.schema, j.base)) && SYSTEM_TABLE in j.root
    ensures AllHoldFast(j)
  {
    TwoGraph("y");
    forall at, w | at in AllSites(j) && DroppedAt(j, at.path, at.column, w)
      ensures false
    {
      if at.path != [] {
        var u := Exist(j, at.path).value;
        if u in j.base && at.column in j.base[u].refs {
          VlanLink("y", u, at.column, w);
        }
      }
    }
  }

  /** Where the two VLANs look alike every reading is written back without effect, although one of them
      shows and the other does not. */
  lemma AlikeIsHarmless(root: Root, refList: RefList)
    ensures var j := TwoJob("y", root);
            ValidSchema(j.schema) && EveryReadingHarmless(j, refList) && !Tidy(j.schema, j.base, true)
  {
    VlanSchemaIsValid(false);
    forall back | MayReadAll(VlanSchema(false), TwoVlans("y"), Some(back))
      ensures Harmless(TwoJob("y", RootOf(back)), refList)
    {
      var j := TwoJob("y", RootOf(back));
      TwoInOrder("y", j.root);
      VlanLists();
      NoReadingMovesRows(j);
      TwoGraph("y");
      TwoHoldFast(j);
      forall p | Live(j, p)
        ensures AtRest(j, refList, p)
      {
        if |p| == 1 {
          SystemAtRest(j, refList, p);
        } else {
          VlanAtRest(j, refList, p);
        }
      }
    }
    TwoAreUntidy("y");
  }

  lemma UntidyColumn(hidden: string)
    requires ValidSchema(VlanSchema(false))
    ensures !AllOrNone(VlanSchema(false), TwoVlans(hidden), VLAN_TABLE, map["a" := HIDDEN, "b" := VISIBLE])
  {
    VlansRead(hidden);
    SomeNotAll(VlanSchema(false), TwoVlans(hidden), VLAN_TABLE, map["a" := HIDDEN, "b" := VISIBLE], "a", "b");
  }

  lemma UntidyRow(s: Schema, db: Db, t: Name, u: Uuid, c: Name)
    requires ValidSchema(s) && Entered(s, db, t, u) && IsTopLevel(s, t) && IsChildColumn(s.tables[t], c)
    requires c in db[u].refs && db[u].refs[c].Map? && !AllOrNone(s, db, s.tables[t].references[c].refTable, db[u].refs[c].entries)
    ensures !Tidy(s, db, true)
  {
    assert !TidyBelow(s, db, t, c, db[u].refs[c], true);
    assert !TidyRow(s, db, t, u, true);
    assert u in RowsIn(db, t);
    assert !TidyTable(s, db, t, true);
  }

  lemma TwoAreUntidy(hidden: string)
    requires ValidSchema(VlanSchema(false))
    ensures !Tidy(VlanSchema(false), TwoVlans(hidden), true)
  {
    UntidyColumn(hidden);
    SystemColumns(hidden);
    UntidyRow(VlanSchema(false), TwoVlans(hidden), SYSTEM_TABLE, SYSTEM, VLANS);
  }

  // ---------- deleting ----------

  const MIDDLE_TABLE: Name := "Middle"
  const LOW_TABLE: Name := "Low_Table"
  const BELOW: Name := "below"

  function Holder(child: Name, parent: Name): TableSchema {
    TableSchema(map[], map[BELOW := RefColumn(child, Keyed, Child, true, true)], [], Some(parent), true)
  }

  const TOP_TABLE: Name := "Top"

  /** System, above three tables of which only the lowest keeps its rows. */
  const CHAIN_SCHEMA: Schema :=
    Schema(map[SYSTEM_TABLE := Holder(TOP_TABLE, "").(parent := None),
               TOP_TABLE := Holder(MIDDLE_TABLE, SYSTEM_TABLE),
               MIDDLE_TABLE := Holder(LOW_TABLE, TOP_TABLE),
               LOW_TABLE := TableSchema(map[], map[], [], Some(MIDDLE_TABLE), false)],
           map[SYSTEM_TABLE := 3, TOP_TABLE := 2, MIDDLE_TABLE := 1, LOW_TABLE := 0])

  const TOP: Uuid := 1
  const MIDDLE: Uuid := 2
  const LOW: Uuid := 3

  function Holding(t: Name, u: Uuid): Row {
    Row(t, map[], map[BELOW := Map(map["k" := u])], false)
  }

  const CHAIN: Db := map[
    SYSTEM := Holding(SYSTEM_TABLE, TOP), TOP := Holding(TOP_TABLE, MIDDLE), MIDDLE := Holding(MIDDLE_TABLE, LOW),
    LOW := Row(LOW_TABLE, map[], map[], false)]

  lemma ChainSchemaIsValid()
    ensures ValidSchema(CHAIN_SCHEMA)
  {
    assert ValidTable(CHAIN_SCHEMA, SYSTEM_TABLE) && ValidTable(CHAIN_SCHEMA, TOP_TABLE);
    assert ValidTable(CHAIN_SCHEMA, MIDDLE_TABLE) && ValidTable(CHAIN_SCHEMA, LOW_TABLE);
    assert ValidColumn(CHAIN_SCHEMA, SYSTEM_TABLE, BELOW) && ValidColumn(CHAIN_SCHEMA, TOP_TABLE, BELOW);
    assert ValidColumn(CHAIN_SCHEMA, MIDDLE_TABLE, BELOW);
  }

  lemma HoldsOne(t: Name, u: Uuid)
    ensures Holding(t, u).refs[BELOW].entries.Keys == {"k"} && Targets(Holding(t, u).refs[BELOW]) == {u}
  {
    var entries := map["k" := u];
    assert entries["k"] in entries.Values;
  }

  lemma ChainRowsAreValid()
    ensures forall u :: u in CHAIN ==> ValidRow(CHAIN_SCHEMA, CHAIN[u])
  {
    assert ValidRow(CHAIN_SCHEMA, CHAIN[SYSTEM]) && ValidRow(CHAIN_SCHEMA, CHAIN[TOP]);
    assert ValidRow(CHAIN_SCHEMA, CHAIN[MIDDLE]) && ValidRow(CHAIN_SCHEMA, CHAIN[LOW]);
  }

  lemma ChainLink(u: Uuid, c: Name, v: Uuid)
    requires u in CHAIN && c in CHAIN[u].refs && v in Targets(CHAIN[u].refs[c])
    ensures ValidTarget(CHAIN_SCHEMA, CHAIN, u, c, v)
  {
    HoldsOne(SYSTEM_TABLE, TOP);
    HoldsOne(TOP_TABLE, MIDDLE);
    HoldsOne(MIDDLE_TABLE, LOW);
  }

  lemma ChainIsValid()
    ensures ValidDb(CHAIN_SCHEMA, CHAIN)
  {
    ChainRowsAreValid();
    forall u, c, v | u in CHAIN && c in CHAIN[u].refs && v in Targets(CHAIN[u].refs[c])
      ensures ValidTarget(CHAIN_SCHEMA, CHAIN, u, c, v)
    {
      ChainLink(u, c, v);
    }
  }

  lemma ChainKids()
    ensures var g := GraphOf(CHAIN_SCHEMA, CHAIN);
            && g.kids[TOP] == {MIDDLE} && g.kids[MIDDLE] == {LOW}
            && MIDDLE in g.deletable && LOW !in g.deletable
  {
    HoldsOne(TOP_TABLE, MIDDLE);
    HoldsOne(MIDDLE_TABLE, LOW);
    assert CHAIN[TOP].refs.Keys == {BELOW} && CHAIN[MIDDLE].refs.Keys == {BELOW};
    assert IsChildColumn(CHAIN_SCHEMA.tables[TOP_TABLE], BELOW) && IsChildColumn(CHAIN_SCHEMA.tables[MIDDLE_TABLE], BELOW);
  }

  /** Of such a chain only the top row is scheduled for deletion. */
  lemma DeletingOrphans()
    ensures ValidSchema(CHAIN_SCHEMA) && ValidDb(CHAIN_SCHEMA, CHAIN)
    ensures var g := GraphOf(CHAIN_SCHEMA, CHAIN);
            ValidGraph(g) && PlanSet(g, TOP) == {TOP} && {MIDDLE, LOW} <= Below(g, TOP) && !NoOrphans(g, TOP)
  {
    ChainSchemaIsValid();
    ChainIsValid();
    GraphIsValid(CHAIN_SCHEMA, CHAIN);
    ChainKids();
    PlanCanOrphan(GraphOf(CHAIN_SCHEMA, CHAIN), TOP, MIDDLE, LOW);
  }

  // ---------- a validator that crashes ----------

  /** The validators of a plugin that fails on every deletion, with anything but a ValidationError. */
  const CRASHES: Validators := (kind, op, db) => if kind == DELETE then Crashed else Pass

  lemma {:induction false} NothingRejected(kind: Kind, ops: seq<ResourceOp>, db: Db)
    ensures ModificationErrors(CRASHES, kind, ops, db) == []
  {
    if ops != [] {
      NothingRejected(kind, ops[..|ops| - 1], db);
    }
  }

  lemma NothingGoes(deletes: seq<ResourceOp>, db: Db)
    ensures DeleteErrors(CRASHES, deletes, db) == [] && AfterDeletes(CRASHES, deletes, db) == db
  {
    DeleteErrorsExactly(CRASHES, deletes, db);
    forall u | u in db
      ensures u in AfterDeletes(CRASHES, deletes, db)
    {
      DeletesExactly(CRASHES, deletes, db, u);
    }
  }

  /** The port that the configuration leaves out is put up for deletion. */
  lemma FirstIsDoomed()
    ensures ValidGraph(GraphOf(SCHEMA, BASE)) && Doomed(JOB, AllSites(JOB), FIRST)
  {
    ConfigExample.Graph();
    Nodes();
    PortKey();
    var at := At(AT_SYSTEM, PORTS);
    assert OldColumn(JOB, AT_SYSTEM, PORTS) == Rows({FIRST}) && KeysAt(JOB, AT_SYSTEM, PORTS) == {"b"};
    assert FIRST in GraphOf(SCHEMA, BASE).deletable;
    assert at in AllSites(JOB) && DroppedAt(JOB, at.path, at.column, FIRST);
    RootIsPlanned(GraphOf(SCHEMA, BASE), FIRST);
  }

  lemma CrashIsSilent(creates: seq<ResourceOp>, updates: seq<ResourceOp>, deletes: seq<ResourceOp>, rows: Db)
    ensures ErrorsOf(CRASHES, creates, updates, deletes, rows) == []
    ensures AfterDeletes(CRASHES, deletes, rows) == rows
  {
    NothingGoes(deletes, rows);
    NothingRejected(CREATE, creates, rows);
    NothingRejected(UPDATE, updates, rows);
  }

  /** With such a plugin a write is committed without errors, and whatever it puts up for deletion stays. */
  lemma CrashKeepsRow(j: Job, refList: RefList, created: map<Path, Uuid>, creates: seq<ResourceOp>, updates: seq<ResourceOp>,
                      deletes: seq<ResourceOp>, rows: Db, v: Uuid)
    requires WellPosed(j) && Prepared(j, refList, created, creates, updates, deletes, rows, true) && Complete(j)
    requires Doomed(j, AllSites(j), v)
    ensures ResultOf(ErrorsOf(CRASHES, creates, updates, deletes, rows), true) == Committed
    ensures v in RowsOf(deletes) && v in AfterDeletes(CRASHES, deletes, rows)
    ensures !Written(j, refList, created, RowsOf(deletes), AfterDeletes(CRASHES, deletes, rows))
  {
    CrashIsSilent(creates, updates, deletes, rows);
    PlannedAreThere(j, refList, created, RowsOf(deletes), rows);
    assert !Accepted(CRASHES, deletes, rows, v);
    WrittenExactly(j, refList, created, CRASHES, deletes, rows);
  }

  /** So it does with the port that a complete configuration leaves out. */
  lemma CrashKeepsPort(refList: RefList, created: map<Path, Uuid>, creates: seq<ResourceOp>, updates: seq<ResourceOp>,
                       deletes: seq<ResourceOp>, rows: Db)
    requires Prepared(JOB, refList, created, creates, updates, deletes, rows, true)
    ensures Complete(JOB)
    ensures ResultOf(ErrorsOf(CRASHES, creates, updates, deletes, rows), true) == Committed
    ensures FIRST in RowsOf(deletes) && FIRST in AfterDeletes(CRASHES, deletes, rows)
    ensures !Written(JOB, refList, created, RowsOf(deletes), AfterDeletes(CRASHES, deletes, rows))
  {
    ExampleIsComplete();
    FirstIsDoomed();
    CrashKeepsRow(JOB, refList, created, creates, updates, deletes, rows, FIRST);
  }
}
