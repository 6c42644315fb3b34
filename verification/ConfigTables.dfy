/** The stages of a write at the level of whole tables: the top-level tables are, as it were, the
    child columns of the replica itself, which has the empty path. */
module ConfigTables {
  import opened Options
  import opened Database
  import opened Containment
  import opened Deletion
  import opened ConfigTree
  import opened ConfigTarget
  import opened ConfigDropped
  import opened ConfigStages

  ghost function AllLocations(j: Job): iset<Path> {
    iset q: Path | Live(j, q)
  }

  ghost function AllSites(j: Job): iset<Site> {
    iset at: Site | if at.path == [] then IsTopLevel(j.schema, at.column) else Live(j, at.path) && at.column in ChildColumns(j, at.path)
  }

  lemma TopLocation(j: Job, t: Name, k: string)
    requires t in j.root && k in j.root[t].entries
    ensures NodeAt(j.root, [Step(t, k)]) == Some(j.root[t].entries[k])
    ensures TableAt(j.schema, [Step(t, k)]) == t && !IsKeyed(j.schema, [Step(t, k)])
    ensures [] + [Step(t, k)] == [Step(t, k)]
  {
  }

  /** A live location lies in a table of the configuration. */
  lemma LocationsTable(j: Job, q: Path)
    requires WellPosed(j) && Live(j, q)
    ensures q != [] && q[0].column in j.root && q[0].key in j.root[q[0].column].entries
    ensures IsTopLevel(j.schema, q[0].column)
  {
    LivePrefix(j, [q[0]], q);
    assert Fits(j, [q[0]]);
  }

  lemma NoLocations(j: Job, t: Name)
    requires WellPosed(j) && t !in j.root
    ensures ColumnsRegion(j, [], {t}) == iset{}
  {
    forall q | q in ColumnsRegion(j, [], {t})
      ensures false
    {
      LocationsTable(j, q);
    }
  }

  // ---------- a table that is not mentioned ----------

  lemma TableRows(j: Job, st: State, t: Name, deleteList: set<Uuid>)
    requires WellPosed(j) && Inv(j, st) && IsTopLevel(j.schema, t) && t !in j.root
    requires deleteList == set u | u in st.rows && st.rows[u].table == t && DeleteCheck(j.schema, t)
    ensures forall w {:trigger w in deleteList} {:trigger DroppedAt(j, [], t, w)} :: w in deleteList <==> DroppedAt(j, [], t, w)
    ensures forall w :: w in deleteList ==> w in j.base && !Claimed(j, w)
  {
    forall w
      ensures w in deleteList <==> DroppedAt(j, [], t, w)
      ensures w in deleteList ==> w in j.base && !Claimed(j, w)
    {
      if w in st.rows && w !in j.base {
        var q :| q in st.created && st.created[q] == w;
        assert CreatedRow(j, st.rows, st.refList, st.created, q);
        LocationsTable(j, q);
        assert Fits(j, q);
      } else if w in j.base {
        assert OldRow(j, st.rows, w);
      }
      if DroppedAt(j, [], t, w) {
        TopDroppedIsUnclaimed(j, t, w);
      }
    }
  }

  lemma AbsentTable(j: Job, a: State, t: Name, deleteList: set<Uuid>, planned: set<Uuid>)
    requires WellPosed(j) && Inv(j, a) && ValidGraph(GraphOf(j.schema, j.base)) && t !in j.root
    requires IsPlanned(j, [], t, deleteList, planned)
    ensures ColumnStage(j, a, a.(deletes := a.deletes + multiset(planned)), [], t)
  {
    DropStage(j, a, [], t, deleteList, planned);
    Touch(j, a, a.(deletes := a.deletes + multiset(planned)), iset{}, iset{[]}, iset{At([], t)});
    NoLocations(j, t);
    OneSite([], t);
    assert SitesOf(j, iset{}) == iset{};
    NoSites([], OwnSites([], {t}));
  }

  // ---------- a table that is ----------

  lemma TableBegin(j: Job, st: State, t: Name)
    requires WellPosed(j) && Inv(j, st) && ValidGraph(GraphOf(j.schema, j.base)) && t in j.root
    requires Untouched(j, st, ColumnsRegion(j, [], {t}))
    ensures EntriesState(j, st, st, [], t, {}, j.root[t].entries.Keys, map[])
  {
    TableEntries(j, t);
    EmptyStage(j, st, iset{});
    assert EntriesRegion(j, [], t, {}) == iset{};
    assert SitesOf(j, iset{}) == iset{};
  }

  lemma TableEntries(j: Job, t: Name)
    requires WellPosed(j) && t in j.root
    ensures EntriesRegion(j, [], t, j.root[t].entries.Keys) == ColumnsRegion(j, [], {t})
  {
    forall q | q in ColumnsRegion(j, [], {t})
      ensures q in EntriesRegion(j, [], t, j.root[t].entries.Keys)
    {
      LocationsTable(j, q);
    }
  }

  lemma TableEnd(j: Job, start: State, st: State, t: Name, children: map<string, Uuid>)
    requires WellPosed(j) && t in j.root && EntriesState(j, start, st, [], t, j.root[t].entries.Keys, {}, children)
    ensures ColumnStage(j, start, st, [], t)
    ensures AllLabelled(j, st, ColumnsRegion(j, [], {t}))
  {
    TableEntries(j, t);
    var r := ColumnsRegion(j, [], {t});
    Touch(j, start, st, r, iset{[]}, SitesOf(j, r));
    NothingDropped(j, start, st, [], t, r, iset{[]}, SitesOf(j, r));
  }

  // ---------- one table after the other ----------

  /** Since `start` the tables `done` have been written, the tables `todo` have not. */
  ghost predicate TablesState(j: Job, start: State, st: State, done: set<Name>, todo: set<Name>) {
    && ValidGraph(GraphOf(j.schema, j.base))
    && Stage(j, start, st, ColumnsRegion(j, [], done), iset{[]}, ColumnSites(j, [], done))
    && Untouched(j, st, ColumnsRegion(j, [], todo))
    && AllLabelled(j, st, ColumnsRegion(j, [], done))
  }

  lemma TablesBegin(j: Job, st: State, tables: set<Name>)
    requires WellPosed(j) && Inv(j, st) && ValidGraph(GraphOf(j.schema, j.base)) && Untouched(j, st, AllLocations(j))
    ensures TablesState(j, st, st, {}, tables)
  {
    EmptyStage(j, st, iset{[]});
    assert ColumnsRegion(j, [], {}) == iset{};
    assert ColumnSites(j, [], {}) == iset{};
    assert forall q :: q in ColumnsRegion(j, [], tables) ==> q in AllLocations(j);
  }

  lemma TablesNext(j: Job, start: State, x: State, y: State, done: set<Name>, todo: set<Name>, t: Name)
    requires WellPosed(j) && TablesState(j, start, x, done, todo) && t in todo && t !in done
    requires ColumnStage(j, x, y, [], t) && AllLabelled(j, y, ColumnsRegion(j, [], {t}))
    ensures TablesState(j, start, y, done + {t}, todo - {t})
  {
    NextColumnStage(j, start, x, y, [], done, t);
    UntouchedColumns(j, x, [], todo - {t}, todo);
    StaysUntouchedColumn(j, x, y, [], t, todo - {t});
    NextColumn(j, [], done, t);
    forall q | q in ColumnsRegion(j, [], done + {t}) && IsKeyed(j.schema, q)
      ensures q in y.labels
    {
      if q in ColumnsRegion(j, [], done) {
        assert q in x.labels;
      }
    }
  }

  lemma TablesCover(j: Job, tables: set<Name>)
    requires WellPosed(j) && forall t :: t in tables <==> IsTopLevel(j.schema, t)
    ensures ColumnsRegion(j, [], tables) == AllLocations(j)
  {
    forall q | Live(j, q)
      ensures q in ColumnsRegion(j, [], tables)
    {
      LocationsTable(j, q);
    }
  }

  lemma TablesEnd(j: Job, start: State, st: State, tables: set<Name>)
    requires WellPosed(j) && TablesState(j, start, st, tables, {})
    requires forall t :: t in tables <==> IsTopLevel(j.schema, t)
    ensures Stage(j, start, st, AllLocations(j), iset{[]}, AllSites(j))
    ensures AllLabelled(j, st, AllLocations(j))
  {
    TablesCover(j, tables);
    assert ColumnSites(j, [], tables) == AllSites(j);
  }
}
