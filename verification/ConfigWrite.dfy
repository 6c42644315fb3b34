/** Writing a configuration: the first of the two phases, which creates and updates rows and puts the
    rows that are no longer named up for deletion (ops/_write.py). */
module ConfigWrite {
  import opened Options
  import opened Database
  import opened Validation
  import opened Containment
  import opened Deletion
  import opened ConfigTree
  import opened ConfigTarget
  import opened ConfigDropped
  import opened ConfigStages
  import opened ConfigTables

  /** There is always a UUID that is not taken. */
  lemma FreshUuid(rows: Db) returns (v: Uuid)
    ensures v !in rows
  {
    v := AboveAll(rows.Keys);
  }

  lemma {:induction false} AboveAll(s: set<Uuid>) returns (v: Uuid)
    ensures forall x :: x in s ==> x < v
  {
    if s == {} {
      v := 0;
    } else {
      var y :| y in s;
      v := AboveAll(s - {y});
      assert forall x :: x in s ==> x == y || x in s - {y};
      if v <= y {
        v := y + 1;
      }
    }
  }

  /** `was` with the columns `done` taken from `target`. */
  function Mixed(was: map<Name, Value>, target: map<Name, Value>, done: set<Name>): map<Name, Value>
    requires was.Keys == target.Keys
  {
    map c | c in was :: if c in done then target[c] else was[c]
  }

  lemma MixedStep(was: map<Name, Value>, target: map<Name, Value>, done: set<Name>, key: Name)
    requires was.Keys == target.Keys && key in was
    ensures Mixed(was, target, done + {key}) == Mixed(was, target, done)[key := target[key]]
    ensures key !in done && target[key] == was[key] ==> Mixed(was, target, done + {key}) == Mixed(was, target, done)
  {
  }

  ghost predicate UniqueRows(entries: map<string, Uuid>) {
    forall k, l :: k in entries && l in entries && entries[k] == entries[l] ==> k == l
  }

  /** Which rows a key/value column loses, and under which keys they were. */
  ghost predicate IsSplit(entries: map<string, Uuid>, keys: set<string>, check: bool, deleteList: map<Uuid, string>) {
    && (forall w :: w in deleteList ==> deleteList[w] in entries && entries[deleteList[w]] == w && deleteList[w] !in keys && check)
    && (forall k :: k in entries && k !in keys && check ==> entries[k] in deleteList)
  }

  lemma KeyedSplit(entries: map<string, Uuid>, keys: set<string>, check: bool, deletable: set<Uuid>, deleteList: map<Uuid, string>)
    requires IsSplit(entries, keys, check, deleteList)
    requires forall w :: w in entries.Values ==> (w in deletable <==> check)
    ensures deleteList.Keys == set k | k in entries && k !in keys && entries[k] in deletable :: entries[k]
  {
  }

  /** Which children are left in a key/value column, and under their own keys. */
  ghost predicate IsLeft(entries: map<string, Uuid>, keys: set<string>, check: bool, back: set<Uuid>, left: map<string, Uuid>) {
    forall k {:trigger k in left} {:trigger k in entries} ::
      && (k in left ==> k in entries && left[k] == entries[k])
      && (k in entries ==> (k in left <==> k in keys || !check || entries[k] in back))
  }

  lemma LeftOne(entries: map<string, Uuid>, keys: set<string>, check: bool, deleteList: map<Uuid, string>, back: set<Uuid>,
                left: map<string, Uuid>, w: Uuid)
    requires IsSplit(entries, keys, check, deleteList) && UniqueRows(entries) && w in deleteList
    requires IsLeft(entries, keys, check, back, left)
    ensures IsLeft(entries, keys, check, back + {w}, left[deleteList[w] := w])
  {
  }

  lemma LeftIs(entries: map<string, Uuid>, keys: set<string>, check: bool, g: Graph, deleteList: map<Uuid, string>,
               failed: set<Uuid>, left: map<string, Uuid>)
    requires IsSplit(entries, keys, check, deleteList) && IsLeft(entries, keys, check, failed, left)
    requires forall w :: w in entries.Values ==> (w in g.deletable <==> check)
    requires failed == set w | w in deleteList.Keys && !Removable(g, w)
    ensures left == map k | k in entries && (k in keys || Kept(g, entries[k])) :: entries[k]
  {
    forall k | k in entries
      ensures k in left <==> k in keys || Kept(g, entries[k])
    {
      assert entries[k] in entries.Values;
    }
  }

  /** Puts the children that could not be deleted back under their keys. */
  method RestoreKeyed(entries: map<string, Uuid>, keys: set<string>, ghost check: bool, ghost g: Graph,
                      deleteList: map<Uuid, string>, kept: map<string, Uuid>, failed: set<Uuid>)
    returns (remainder: map<string, Uuid>)
    requires IsSplit(entries, keys, check, deleteList) && UniqueRows(entries)
    requires forall w :: w in entries.Values ==> (w in g.deletable <==> check)
    requires kept == map k | k in entries && (k in keys || !check) :: entries[k]
    requires failed == set w | w in deleteList.Keys && !Removable(g, w)
    ensures remainder == map k | k in entries && (k in keys || Kept(g, entries[k])) :: entries[k]
  {
    remainder := kept;
    var todo := failed;
    while todo != {}
      invariant todo <= failed
      invariant IsLeft(entries, keys, check, failed - todo, remainder)
      decreases todo
    {
      var item :| item in todo;
      LeftOne(entries, keys, check, deleteList, failed - todo, remainder, item);
      assert failed - (todo - {item}) == failed - todo + {item};
      todo := todo - {item};
      remainder := remainder[deleteList[item] := item];
    }
    assert failed - todo == failed;
    LeftIs(entries, keys, check, g, deleteList, failed, remainder);
  }

  class ConfigWriter {
    const job: Job
    const validator: ValidatorAdapter
    /** The rows as seen inside the transaction. */
    var rows: Db
    /** Rows inserted so far, by table and index; it outlives a single write. */
    var refList: map<(Name, string), Uuid>
    /** Rows whose entries in the tree have been re-keyed by UUID. */
    var labels: map<Path, Uuid>
    ghost var created: map<Path, Uuid>
    /** How often each row is put up for deletion. */
    ghost var planned: multiset<Uuid>

    constructor (job: Job, validator: ValidatorAdapter, refList: map<(Name, string), Uuid>)
      ensures this.job == job && this.validator == validator
      ensures rows == job.base && this.refList == refList && labels == map[] && created == map[] && planned == multiset{}
    {
      this.job := job;
      this.validator := validator;
      this.rows := job.base;
      this.refList := refList;
      this.labels := map[];
      this.created := map[];
      this.planned := multiset{};
    }

    ghost function Snap(): State
      reads this, validator
    {
      State(rows, refList, labels, created,
            RowsOf(validator.creates), RowsOf(validator.updates), planned)
    }

    ghost predicate Ready()
      reads this, validator
    {
      WellPosed(job) && ValidGraph(GraphOf(job.schema, job.base)) && Inv(job, Snap())
    }

    /** What the lists tell of the rows on them. */
    ghost predicate Told()
      reads this`created, this`planned, validator`creates, validator`updates, validator`deletes
    {
      Recorded(job, created, validator.creates, validator.updates, validator.deletes) && RowBag(validator.deletes) == planned
    }

    /** Replaces a row. */
    method PutRow(u: Uuid, row: Row)
      modifies this`rows
      ensures rows == old(rows)[u := row]
      ensures old(Told()) ==> Told()
    {
      rows := rows[u := row];
    }

    method PutLabels(all: map<Path, Uuid>)
      modifies this`labels
      ensures labels == all
      ensures old(Told()) ==> Told()
    {
      labels := all;
    }

    // ---------- configuration columns ----------

    /** Sets every mutable configuration column of a row to its new value, or empties it. */
    method SetConfigColumns(data: map<Name, Value>, u: Uuid, t: Name) returns (changed: bool)
      requires t in job.schema.tables && u in rows && rows[u].config.Keys == job.schema.tables[t].config.Keys
      modifies this`rows
      ensures rows == old(rows)[u := old(rows)[u].(config := TargetConfig(job.schema.tables[t], old(rows)[u].config, data))]
      ensures changed <==> TargetConfig(job.schema.tables[t], old(rows)[u].config, data) != old(rows)[u].config
      ensures forall c :: c in old(rows)[u].config && c in job.schema.tables[t].config ==>
                var was := old(rows)[u].config[c];
                rows[u].config[c] == if !job.schema.tables[t].config[c].mutable then was
                                     else if c in data then data[c]
                                     else match was
                                          case Text(_) => Text("")
                                          case Items(_) => Items([])
                                          case Entries(_) => Entries(map[])
                                          case _ => NoneValue
    {
      changed := false;
      var ts := job.schema.tables[t];
      ghost var was, target := rows[u].config, TargetConfig(ts, rows[u].config, data);
      var todo := ts.config.Keys;
      ghost var done: set<Name> := {};
      assert Mixed(was, target, {}) == was;
      while todo != {}
        invariant done !! todo && done + todo == was.Keys == target.Keys
        invariant u in rows && rows == old(rows)[u := rows[u]]
        invariant rows[u] == old(rows)[u].(config := Mixed(was, target, done))
        invariant changed <==> exists c :: c in done && target[c] != was[c]
        decreases todo
      {
        var key :| key in todo;
        todo := todo - {key};
        ghost var before := rows[u].config;
        assert before[key] == was[key];
        if ts.config[key].mutable {
          if key in data {
            if data[key] != rows[u].config[key] {
              rows := rows[u := rows[u].(config := rows[u].config[key := data[key]])];
              changed := true;
            }
          } else {
            var value := EmptyLike(rows[u].config[key]);
            if rows[u].config[key] != value {
              rows := rows[u := rows[u].(config := rows[u].config[key := value])];
              changed := true;
            }
          }
        }
        MixedStep(was, target, done, key);
        assert rows[u].config == before[key := target[key]];
        done := done + {key};
      }
      assert Mixed(was, target, done) == target;
    }

    /** Inserts a row with its initial columns; it is taken back when its table does not allow it. */
    method InsertRowCheck(data: Data, t: Name) returns (row: Option<Uuid>)
      requires t in job.schema.tables
      modifies this`rows
      ensures row.Some? <==> InsertCheck(job.schema, t)
      ensures row.None? ==> rows == old(rows)
      ensures row.Some? ==> row.value !in old(rows) && rows == old(rows)[row.value := InitialRow(job.schema, t, data)]
    {
      ghost var unused := FreshUuid(rows);
      var v :| v !in rows;
      var ts := job.schema.tables[t];
      ghost var initial, target := InitialConfig(ts, map[]), InitialConfig(ts, data.config);
      rows := rows[v := Row(t, map c | c in ts.config :: ts.config[c].initial, InitialRefs(ts), false)];
      var todo := ts.config.Keys;
      ghost var done: set<Name> := {};
      assert rows[v].config == initial == Mixed(initial, target, {});
      while todo != {}
        invariant done !! todo && done + todo == ts.config.Keys
        invariant v in rows && rows == old(rows)[v := rows[v]]
        invariant rows[v] == Row(t, Mixed(initial, target, done), InitialRefs(ts), false)
        decreases todo
      {
        var key :| key in todo;
        todo := todo - {key};
        if key in data.config {
          rows := rows[v := rows[v].(config := rows[v].config[key := data.config[key]])];
        }
        MixedStep(initial, target, done, key);
        done := done + {key};
      }
      assert Mixed(initial, target, done) == target;
      if InsertCheck(job.schema, t) {
        row := Some(v);
      } else {
        rows := rows - {v};
        assert rows == old(rows);
        row := None;
      }
    }

    /** The committed row with this index; tables without an index have none. */
    function IndexToRow(t: Name, key: string): Option<Uuid>
      requires t in job.schema.tables
    {
      if t == SYSTEM_TABLE then Some(job.system)
      else if job.schema.tables[t].indexes == [] then None
      else Lookup(job, t, key)
    }

    lemma FindsExisting(p: Path, row: Option<Uuid>)
      requires WellPosed(job) && NodeAt(job.root, p).Some?
      requires if IsKeyed(job.schema, p) then row == Exist(job, p) else row == None
      ensures TableAt(job.schema, p) in job.schema.tables && p != []
      ensures Exist(job, p) == if row.Some? then row else IndexToRow(TableAt(job.schema, p), Last(p).key)
    {
      assert Fits(job, p);
      if |p| == 1 {
        TopTable(job, p);
      } else {
        KeyedTable(job, p);
        assert ValidTable(job.schema, TableAt(job.schema, p));
      }
    }
  
    // ---------- children that are no longer named ----------

    /** Goes through a list column: children that are neither named nor protected are put up for
        deletion, the others stay. */
    method SplitList(children: set<Uuid>, keys: set<string>, childTable: Name) returns (deleteList: set<Uuid>, kept: set<Uuid>)
      requires childTable in job.schema.tables
      requires forall w :: w in children ==> Indexed(job.schema, rows, w)
      ensures deleteList == set w | w in children && !NamedIn(job.schema, rows, w, keys) && DeleteCheck(job.schema, childTable)
      ensures kept == set w | w in children && (NamedIn(job.schema, rows, w, keys) || !DeleteCheck(job.schema, childTable))
    {
      deleteList, kept := {}, {};
      var todo := children;
      while todo != {}
        invariant todo <= children
        invariant deleteList == set w | w in children - todo && !NamedIn(job.schema, rows, w, keys) && DeleteCheck(job.schema, childTable)
        invariant kept == set w | w in children - todo && (NamedIn(job.schema, rows, w, keys) || !DeleteCheck(job.schema, childTable))
        decreases todo
      {
        var child :| child in todo;
        todo := todo - {child};
        if RowIndex(job.schema, rows, child) !in keys && DeleteCheck(job.schema, childTable) {
          deleteList := deleteList + {child};
        } else {
          kept := kept + {child};
        }
      }
    }

    /** The same for a key/value column, remembering under which key each child was. */
    method SplitKeyed(entries: map<string, Uuid>, keys: set<string>, childTable: Name)
      returns (deleteList: map<Uuid, string>, kept: map<string, Uuid>)
      requires childTable in job.schema.tables
      requires UniqueRows(entries)
      ensures IsSplit(entries, keys, DeleteCheck(job.schema, childTable), deleteList)
      ensures kept == map k | k in entries && (k in keys || !DeleteCheck(job.schema, childTable)) :: entries[k]
    {
      deleteList, kept := map[], map[];
      var todo := entries.Keys;
      while todo != {}
        invariant todo <= entries.Keys
        invariant forall w :: w in deleteList ==> deleteList[w] in entries.Keys - todo && entries[deleteList[w]] == w
                                                  && deleteList[w] !in keys && DeleteCheck(job.schema, childTable)
        invariant forall k :: k in entries.Keys - todo && k !in keys && DeleteCheck(job.schema, childTable) ==> entries[k] in deleteList
        invariant kept == map k | k in entries.Keys - todo && (k in keys || !DeleteCheck(job.schema, childTable)) :: entries[k]
        decreases todo
      {
        var index :| index in todo;
        todo := todo - {index};
        if index !in keys && DeleteCheck(job.schema, childTable) {
          deleteList := deleteList[entries[index] := index];
        } else {
          kept := kept[index := entries[index]];
        }
      }
    }

    lemma ColumnFacts(p: Path, c: Name, u: Uuid, w: Uuid, ct: Name)
      requires Ready() && IsOld(job, p, u) && c in ChildColumns(job, p)
      requires Untouched(job, Snap(), ColumnsRegion(job, p, {c})) && w in Targets(OldColumn(job, p, c))
      requires TableAt(job.schema, p) in job.schema.tables
      requires ct == job.schema.tables[TableAt(job.schema, p)].references[c].refTable
      ensures w in rows && w in job.base && rows[w] == job.base[w] && rows[w].table == ct && ct in job.schema.tables
      ensures OldColumn(job, p, c).Rows? ==> Indexed(job.schema, rows, w)
      ensures w in GraphOf(job.schema, job.base).deletable <==> DeleteCheck(job.schema, ct)
    {
      ColumnOf(job, p, c, u);
      ColumnChildSame(job, Snap(), p, c, u, w);
      KidIsLower(job.schema, job.base, u, c, w);
      assert ValidColumn(job.schema, TableAt(job.schema, p), c);
      assert ValidRow(job.schema, job.base[w]);
    }

    /** Rows of one table that are named nowhere, all contained in `parent`. */
    ghost predicate Droppable(dropped: set<Uuid>, ct: Name, parent: Option<Owner>)
      requires ValidGraph(GraphOf(job.schema, job.base))
      reads this
    {
      && Scattered(GraphOf(job.schema, job.base), dropped)
      && (forall w {:trigger w in dropped} :: w in dropped ==> w in rows && w in job.base && rows[w].table == ct && !Claimed(job, w))
      && (forall w {:trigger w in dropped} :: w in dropped ==> Described(job.schema, job.base, ResourceOp(w, ct, parent)))
    }

    /** Plans the deletion of children that are named nowhere. */
    method DropChildren(dropped: set<Uuid>, ct: Name, parent: Option<Owner>) returns (failed: set<Uuid>)
      requires Ready() && Told() && Droppable(dropped, ct, parent)
      modifies this`planned, validator`creates, validator`updates, validator`deletes
      ensures Told()
      ensures Snap() == old(Snap()).(deletes := old(Snap()).deletes + multiset(PlanAll(GraphOf(job.schema, job.base), dropped)))
      ensures failed == set w | w in dropped && !Removable(GraphOf(job.schema, job.base), w)
    {
      ghost var g, g' := GraphOf(job.schema, job.base), GraphOf(job.schema, rows);
      GraphIsValid(job.schema, rows);
      PlansDuringWrite(dropped, g, g');
      ghost var before := validator.deletes;
      var notDeleted, added := DeleteRowList(job.schema, rows, validator, dropped, ct, parent, g');
      RowBagAppend(before, added);
      BagOfDistinct(added);
      ToldOfPlan(dropped, ct, parent, before, added);
      planned := planned + multiset(PlanAll(g, dropped));
      failed := notDeleted;
    }

    lemma PlansDuringWrite(dropped: set<Uuid>, g: Graph, g': Graph)
      requires Ready() && g == GraphOf(job.schema, job.base) && g' == GraphOf(job.schema, rows) && ValidGraph(g')
      requires Scattered(g, dropped) && forall w :: w in dropped ==> w in job.base && !Claimed(job, w)
      ensures PlanAll(g', dropped) == PlanAll(g, dropped)
      ensures forall w :: w in dropped ==> (Removable(g', w) <==> Removable(g, w))
      ensures Scattered(g', dropped) && forall w :: w in dropped ==> ForestBelow(job.schema, rows, w)
    {
      forall w | w in dropped
        ensures PlanSet(g', w) == PlanSet(g, w) && (Removable(g', w) <==> Removable(g, w))
      {
        PlanDuringWrite(job, rows, w);
      }
      ScatteredDuringWrite(job, rows, dropped);
    }

    lemma ToldOfPlan(dropped: set<Uuid>, ct: Name, parent: Option<Owner>, before: seq<ResourceOp>, added: seq<ResourceOp>)
      requires WellPosed(job) && ValidGraph(GraphOf(job.schema, job.base)) && RowsInv(job, rows) && Droppable(dropped, ct, parent)
      requires ValidGraph(GraphOf(job.schema, rows)) && forall op :: op in before ==> Described(job.schema, job.base, op)
      requires InPlans(job.schema, rows, GraphOf(job.schema, rows), dropped, parent, added)
      ensures forall op :: op in before + added ==> Described(job.schema, job.base, op)
    {
      forall op | op in added
        ensures Described(job.schema, job.base, op)
      {
        assert InPlanOfAny(job.schema, rows, GraphOf(job.schema, rows), dropped, parent, op);
        var w :| w in dropped && InPlan(job.schema, rows, GraphOf(job.schema, rows), w, parent, op);
        assert OldRow(job, rows, w);
        assert Described(job.schema, job.base, ResourceOp(w, ct, parent));
        DescribedDuringWrite(job, rows, w, parent, op);
      }
    }

    /** What is known of the children in a column that is about to be emptied. */
    ghost predicate Settled(column: RefValue, keys: set<string>, ct: Name)
      reads this
    {
      && ct in job.schema.tables
      && (forall w :: w in Targets(column) ==> w in rows && w in job.base && rows[w] == job.base[w] && rows[w].table == ct)
      && (forall w :: w in Targets(column) && column.Rows? ==> Indexed(job.schema, rows, w))
      && (forall w :: w in Targets(column) ==> (w in GraphOf(job.schema, job.base).deletable <==> DeleteCheck(job.schema, ct)))
      && (forall w :: w in Dropped(job.schema, job.base, column, keys) ==> w in Targets(column) && !Claimed(job, w))
      && (column.Map? ==> UniqueRows(column.entries))
    }

    lemma ColumnSettled(p: Path, c: Name, u: Uuid, t: Name, keys: set<string>, ct: Name)
      requires Ready() && IsOld(job, p, u) && c in ChildColumns(job, p) && keys == KeysAt(job, p, c)
      requires t == TableAt(job.schema, p) && t in job.schema.tables && ct == job.schema.tables[t].references[c].refTable
      requires Untouched(job, Snap(), ColumnsRegion(job, p, {c}))
      ensures Settled(OldColumn(job, p, c), keys, ct)
    {
      ColumnOf(job, p, c, u);
      var column := OldColumn(job, p, c);
      assert ValidColumn(job.schema, t, c);
      forall w | w in Targets(column)
        ensures w in rows && w in job.base && rows[w] == job.base[w] && rows[w].table == ct
        ensures column.Rows? ==> Indexed(job.schema, rows, w)
        ensures w in GraphOf(job.schema, job.base).deletable <==> DeleteCheck(job.schema, ct)
      {
        ColumnFacts(p, c, u, w, ct);
      }
      forall w | w in Dropped(job.schema, job.base, column, keys)
        ensures w in Targets(column) && !Claimed(job, w)
      {
        assert DroppedAt(job, p, c, w);
        DroppedIsUnclaimed(job, p, c, w);
      }
      if column.Map? {
        forall k, l | k in column.entries && l in column.entries && column.entries[k] == column.entries[l]
          ensures k == l
        {
          assert HasKey(job.schema, job.base, u, c, k) && HasKey(job.schema, job.base, u, c, l);
        }
      }
    }

    lemma ColumnDroppable(p: Path, c: Name, u: Uuid, t: Name, keys: set<string>, ct: Name)
      requires Ready() && IsOld(job, p, u) && c in ChildColumns(job, p) && keys == KeysAt(job, p, c)
      requires t == TableAt(job.schema, p) && Settled(OldColumn(job, p, c), keys, ct)
      ensures Droppable(Dropped(job.schema, job.base, OldColumn(job, p, c), keys), ct, Some(Owner(u, t)))
    {
      var dropped := Dropped(job.schema, job.base, OldColumn(job, p, c), keys);
      ColumnOf(job, p, c, u);
      forall w | w in dropped
        ensures DroppedAt(job, p, c, w) && Described(job.schema, job.base, ResourceOp(w, ct, Some(Owner(u, t))))
      {
        assert p != [];
        assert IsChildOf(job.schema, job.base, u, c, w);
      }
      DroppedScattered(job, p, c, dropped);
    }

    lemma SplitIsDropped(children: set<Uuid>, keys: set<string>, ct: Name)
      requires Ready() && Settled(Rows(children), keys, ct)
      ensures (set w | w in children && !NamedIn(job.schema, rows, w, keys) && DeleteCheck(job.schema, ct))
              == Dropped(job.schema, job.base, Rows(children), keys)
    {
      assert Targets(Rows(children)) == children;
    }

    lemma SplitIsRemainder(children: set<Uuid>, keys: set<string>, ct: Name, kept: set<Uuid>, failed: set<Uuid>)
      requires Ready() && Settled(Rows(children), keys, ct)
      requires kept == set w | w in children && (NamedIn(job.schema, rows, w, keys) || !DeleteCheck(job.schema, ct))
      requires failed == set w | w in Dropped(job.schema, job.base, Rows(children), keys) && !Removable(GraphOf(job.schema, job.base), w)
      ensures Rows(kept + failed) == Remainder(job.schema, job.base, Rows(children), keys)
    {
      assert Targets(Rows(children)) == children;
      assert kept + failed == Remainder(job.schema, job.base, Rows(children), keys).rows;
    }

    method EmptyList(children: set<Uuid>, keys: set<string>, ct: Name, parent: Owner) returns (remainder: RefValue)
      requires Ready() && Told() && Settled(Rows(children), keys, ct)
      requires Droppable(Dropped(job.schema, job.base, Rows(children), keys), ct, Some(parent))
      modifies this`planned, validator`creates, validator`updates, validator`deletes
      ensures remainder == Remainder(job.schema, job.base, Rows(children), keys)
      ensures Told()
      ensures Snap() == old(Snap()).(deletes := old(Snap()).deletes
                + multiset(PlanAll(GraphOf(job.schema, job.base), Dropped(job.schema, job.base, Rows(children), keys))))
    {
      var deleteList, kept := SplitList(children, keys, ct);
      SplitIsDropped(children, keys, ct);
      forall failed | failed == set w | w in deleteList && !Removable(GraphOf(job.schema, job.base), w)
        ensures Rows(kept + failed) == Remainder(job.schema, job.base, Rows(children), keys)
      {
        SplitIsRemainder(children, keys, ct, kept, failed);
      }
      var failed := DropChildren(deleteList, ct, Some(parent));
      remainder := Rows(kept + failed);
    }

    method EmptyKeyed(entries: map<string, Uuid>, keys: set<string>, ct: Name, parent: Owner) returns (remainder: RefValue)
      requires Ready() && Told() && Settled(Map(entries), keys, ct)
      requires Droppable(Dropped(job.schema, job.base, Map(entries), keys), ct, Some(parent))
      modifies this`planned, validator`creates, validator`updates, validator`deletes
      ensures remainder == Remainder(job.schema, job.base, Map(entries), keys)
      ensures Told()
      ensures Snap() == old(Snap()).(deletes := old(Snap()).deletes
                + multiset(PlanAll(GraphOf(job.schema, job.base), Dropped(job.schema, job.base, Map(entries), keys))))
    {
      ghost var g, column := GraphOf(job.schema, job.base), Map(entries);
      assert Targets(column) == entries.Values && column.entries == entries;
      var deleteList, kept := SplitKeyed(entries, keys, ct);
      KeyedSplit(entries, keys, DeleteCheck(job.schema, ct), g.deletable, deleteList);
      var failed := DropChildren(deleteList.Keys, ct, Some(parent));
      var restored := RestoreKeyed(entries, keys, DeleteCheck(job.schema, ct), g, deleteList, kept, failed);
      remainder := Map(restored);
    }

    /** Takes the children that `keys` does not name out of a child column, except those that cannot be
        deleted, and returns what is left of the column. */
    method EmptyChildColumn(p: Path, c: Name, u: Uuid, t: Name, keys: set<string>) returns (remainder: RefValue)
      requires Ready() && Told() && IsOld(job, p, u) && c in ChildColumns(job, p) && keys == KeysAt(job, p, c)
      requires t == TableAt(job.schema, p)
      requires u in rows && c in rows[u].refs && rows[u].refs[c] == OldColumn(job, p, c)
      requires Untouched(job, Snap(), ColumnsRegion(job, p, {c}))
      modifies this`planned, validator`creates, validator`updates, validator`deletes
      ensures Ready() && Told()
      ensures remainder == Remainder(job.schema, job.base, OldColumn(job, p, c), keys)
      ensures Snap() == old(Snap()).(deletes := planned)
      ensures Stage(job, old(Snap()), Snap(), iset{}, iset{}, iset{At(p, c)})
    {
      var ct := job.schema.tables[t].references[c].refTable;
      ColumnSettled(p, c, u, t, keys, ct);
      ColumnDroppable(p, c, u, t, keys, ct);
      ghost var dropped := Dropped(job.schema, job.base, OldColumn(job, p, c), keys);
      DropStage(job, Snap(), p, c, dropped, PlanAll(GraphOf(job.schema, job.base), dropped));
      match rows[u].refs[c]
      case Rows(children) =>
        remainder := EmptyList(children, keys, ct, Owner(u, t));
      case Map(entries) =>
        remainder := EmptyKeyed(entries, keys, ct, Owner(u, t));
    }
  
    // ---------- rows and their children ----------

    /** Sets up a row for every entry of a child column and returns them by key. */
    method SetupEntries(p: Path, data: Data, c: Name, u: Uuid, t: Name, ct: Name, columnData: RefValue) returns (children: map<string, Uuid>)
      requires Ready() && Told() && Live(job, p) && NodeAt(job.root, p) == Some(data) && c in data.children
      requires Placed(job, created, p) && u == Place(job, created, p)
      requires t == TableAt(job.schema, p) && ct == TableAt(job.schema, p + [Step(c, "")])
      requires Untouched(job, Snap(), ColumnsRegion(job, p, {c}))
      requires columnData == OldColumn(job, p, c)
      modifies this`rows, this`refList, this`labels, this`created, this`planned, validator`creates, validator`updates, validator`deletes
      ensures Ready() && Told()
      ensures Stage(job, old(Snap()), Snap(), ColumnsRegion(job, p, {c}), iset{}, SitesOf(job, ColumnsRegion(job, p, {c})))
      ensures children == NewChildren(job, created, p, c)
      ensures BelowLabelled(job, labels, p, c, KeysAt(job, p, c))
      decreases data, 0
    {
      var entries := data.children[c].entries;
      children := map[];
      EntriesBegin(job, Snap(), p, c);
      var todo := entries.Keys;
      ghost var start, done: set<string> := Snap(), {};
      while todo != {}
        invariant done + todo == entries.Keys
        invariant Told() && Placed(job, created, p) && u == Place(job, created, p)
        invariant EntriesState(job, start, Snap(), p, c, done, todo, children)
        decreases todo
      {
        var k :| k in todo;
        children := NextEntry(p, data, c, k, u, t, ct, columnData, start, done, todo, children);
        todo := todo - {k};
        done := done + {k};
      }
      assert done == KeysAt(job, p, c);
      EntriesEnd(job, start, Snap(), p, c, children);
    }

    method NextEntry(p: Path, data: Data, c: Name, k: string, u: Uuid, t: Name, ct: Name, columnData: RefValue,
                     ghost start: State, ghost done: set<string>, ghost todo: set<string>, children: map<string, Uuid>)
      returns (after: map<string, Uuid>)
      requires Ready() && Told() && Live(job, p) && NodeAt(job.root, p) == Some(data) && c in data.children && k in data.children[c].entries
      requires Placed(job, created, p) && u == Place(job, created, p)
      requires t == TableAt(job.schema, p) && ct == TableAt(job.schema, p + [Step(c, "")])
      requires columnData == OldColumn(job, p, c)
      requires k in todo && EntriesState(job, start, Snap(), p, c, done, todo, children)
      modifies this`rows, this`refList, this`labels, this`created, this`planned, validator`creates, validator`updates, validator`deletes
      ensures Ready() && Told()
      ensures Placed(job, created, p) && u == Place(job, created, p)
      ensures EntriesState(job, start, Snap(), p, c, done + {k}, todo - {k}, after)
      decreases data, 0, 1
    {
      ghost var before, region := Snap(), RowRegion(job, p + [Step(c, k)]);
      UntouchedEntry(job, before, p, c, todo, k);
      var child := SetupEntry(p, data, c, k, u, t, ct, columnData);
      EntriesNext(job, start, before, Snap(), p, c, done, todo, children, k, child);
      PlacedStays(job, before, Snap(), p, u, region, iset{}, SitesOf(job, region));
      after := if child.Some? then children[k := child.value] else children;
    }

    /** Sets up the row of one entry; in a key/value column it may be there already. */
    method SetupEntry(p: Path, data: Data, c: Name, k: string, u: Uuid, t: Name, ct: Name, columnData: RefValue) returns (child: Option<Uuid>)
      requires Ready() && Told() && Live(job, p) && NodeAt(job.root, p) == Some(data) && c in data.children && k in data.children[c].entries
      requires Placed(job, created, p) && u == Place(job, created, p)
      requires t == TableAt(job.schema, p) && ct == TableAt(job.schema, p + [Step(c, "")])
      requires columnData == OldColumn(job, p, c)
      requires Untouched(job, Snap(), RowRegion(job, p + [Step(c, k)]))
      modifies this`rows, this`refList, this`labels, this`created, this`planned, validator`creates, validator`updates, validator`deletes
      ensures Ready() && Told()
      ensures Stage(job, old(Snap()), Snap(), RowRegion(job, p + [Step(c, k)]), iset{}, SitesOf(job, RowRegion(job, p + [Step(c, k)])))
      ensures child.Some? <==> Live(job, p + [Step(c, k)])
      ensures child.Some? ==> child.value == Place(job, created, p + [Step(c, k)])
      ensures DeepLabelled(job, labels, p + [Step(c, k)])
      decreases data, 0, 0
    {
      EntryLocation(p, data, c, k, ct, columnData);
      var row := match columnData
        case Rows(_) => None
        case Map(m) => if k in m then Some(m[k]) else None;
      child := SetupRow(p + [Step(c, k)], data.children[c].entries[k], ct, row, Some(Owner(u, t)));
    }

    lemma EntryLocation(p: Path, data: Data, c: Name, k: string, ct: Name, columnData: RefValue)
      requires WellPosed(job) && Live(job, p) && NodeAt(job.root, p) == Some(data)
      requires c in data.children && k in data.children[c].entries
      requires ct == TableAt(job.schema, p + [Step(c, "")]) && columnData == OldColumn(job, p, c)
      ensures Parent(p + [Step(c, k)]) == p && Last(p + [Step(c, k)]).key == k
      ensures NodeAt(job.root, p + [Step(c, k)]) == Some(data.children[c].entries[k])
      ensures TableAt(job.schema, p + [Step(c, k)]) == ct
      ensures var row := if columnData.Map? && k in columnData.entries then Some(columnData.entries[k]) else None;
              if IsKeyed(job.schema, p + [Step(c, k)]) then row == Exist(job, p + [Step(c, k)]) else row == None
    {
      ChildPath(p, Step(c, k));
      ChildPath(p, Step(c, ""));
      assert Fits(job, p);
      var named := data.children[c];
      OldColumnShape(job, p, c);
    }

    /** Stores a child column in its row. */
    method SetColumn(p: Path, c: Name, u: Uuid, column: RefValue, ghost done: set<Name>)
      requires Ready() && Placed(job, created, p) && u == Place(job, created, p) && c in ChildColumns(job, p)
      requires u in rows && rows[u] == PartialRow(job, created, p, done)
      requires EntriesPlaced(job, created, p, c) && column == TargetColumn(job, created, p, c)
      modifies this`rows
      ensures Ready()
      ensures Stage(job, old(Snap()), Snap(), iset{}, iset{p}, iset{})
      ensures u in rows && rows[u] == PartialRow(job, created, p, done + {c})
      ensures old(Told()) ==> Told()
    {
      WriteColumn(job, Snap(), p, c, done);
      PutRow(u, rows[u].(refs := rows[u].refs[c := column]));
    }

    /** The labels with those of the entries `children` added. */
    method LabelsWith(p: Path, c: Name, children: map<string, Uuid>) returns (all: map<Path, Uuid>)
      requires children == NewChildren(job, created, p, c)
      ensures LabelsOf(job, created, p, c, labels, all)
      ensures forall k {:trigger p + [Step(c, k)]} :: k in children ==> p + [Step(c, k)] in all
    {
      all := labels;
      var todo := children.Keys;
      while todo != {}
        invariant todo <= children.Keys
        invariant forall k {:trigger p + [Step(c, k)]} :: k in children && k !in todo ==> p + [Step(c, k)] in all
        invariant LabelsOf(job, created, p, c, labels, all)
        decreases todo
      {
        var k :| k in todo;
        todo := todo - {k};
        LabelOne(job, created, p, c, labels, all, k);
        all := all[p + [Step(c, k)] := children[k]];
      }
    }

    /** Entries of tables without an index are re-keyed by the UUID of their row. */
    method Relabel(p: Path, c: Name, children: map<string, Uuid>)
      requires Ready() && EntriesPlaced(job, created, p, c) && children == NewChildren(job, created, p, c)
      modifies this`labels
      ensures Ready()
      ensures Stage(job, old(Snap()), Snap(), iset{}, iset{p}, iset{})
      ensures forall q {:trigger q in labels} :: q in old(labels) ==> q in labels
      ensures forall k {:trigger p + [Step(c, k)]} :: k in children ==> p + [Step(c, k)] in labels
      ensures old(Told()) ==> Told()
    {
      var all := LabelsWith(p, c, children);
      LabelStage(job, Snap(), p, c, all);
      PutLabels(all);
    }

    /** Child column `c` of a row: drops what is no longer named, sets up what is, and stores both. */
    method SetupColumn(p: Path, data: Data, c: Name, u: Uuid, t: Name, isNew: bool, ghost b: State, ghost done: set<Name>, ghost todo: set<Name>)
      requires Ready() && Told() && NodeAt(job.root, p) == Some(data) && t == TableAt(job.schema, p) && isNew == Exist(job, p).None?
      requires ColumnsState(job, b, Snap(), p, u, done, todo) && c in todo && c !in done && c in ChildColumns(job, p)
      modifies this`rows, this`refList, this`labels, this`created, this`planned, validator`creates, validator`updates, validator`deletes
      ensures Ready() && Told()
      ensures ColumnsState(job, b, Snap(), p, u, done + {c}, todo - {c})
      decreases data, 1, 0, 2
    {
      ghost var before := Snap();
      UntouchedColumns(job, before, p, {c}, todo);
      StartColumn(job, p, c);
      if c !in data.children || data.children[c].entries == map[] {
        ClearColumn(p, c, u, t, isNew, done);
      } else {
        FillColumn(p, data, c, u, t, isNew, done);
      }
      ColumnsNext(job, b, before, Snap(), p, u, done, todo, c);
    }

    method ClearColumn(p: Path, c: Name, u: Uuid, t: Name, isNew: bool, ghost done: set<Name>)
      requires Ready() && Told() && t == TableAt(job.schema, p) && KeysAt(job, p, c) == {}
      requires Placed(job, created, p) && u == Place(job, created, p) && isNew == Exist(job, p).None?
      requires c in ChildColumns(job, p) && c !in done
      requires u in rows && rows[u] == PartialRow(job, created, p, done)
      requires Untouched(job, Snap(), ColumnsRegion(job, p, {c}))
      modifies this`rows, this`planned, validator`creates, validator`updates, validator`deletes
      ensures Ready() && Told()
      ensures ColumnStage(job, old(Snap()), Snap(), p, c)
      ensures u in rows && rows[u] == PartialRow(job, created, p, done + {c})
      ensures AllLabelled(job, Snap(), ColumnsRegion(job, p, {c}))
    {
      ghost var a := Snap();
      StartColumn(job, p, c);
      NothingNamed(job, created, p, c);
      assert SitesOf(job, iset{}) == iset{};
      if isNew {
        SkipColumn(job, created, p, c, done);
        EmptyStage(job, a, iset{});
        EmptyStage(job, a, iset{p});
        ColumnDone(job, a, a, a, a, p, c);
      } else {
        var remainder := EmptyChildColumn(p, c, u, t, {});
        ghost var b := Snap();
        EmptyStage(job, b, iset{});
        EntriesArePlaced(job, created, p, c);
        SetColumn(p, c, u, remainder, done);
        ColumnDone(job, a, b, b, Snap(), p, c);
      }
    }

    lemma ColumnTable(p: Path, data: Data, c: Name)
      requires WellPosed(job) && Live(job, p) && NodeAt(job.root, p) == Some(data) && c in data.children
      ensures TableAt(job.schema, p) in job.schema.tables && c in job.schema.tables[TableAt(job.schema, p)].references
      ensures var ct := job.schema.tables[TableAt(job.schema, p)].references[c].refTable;
              && ct in job.schema.tables && ct == TableAt(job.schema, p + [Step(c, "")])
              && forall k {:trigger p + [Step(c, k)]} :: IsKeyed(job.schema, p + [Step(c, k)]) ==> job.schema.tables[ct].indexes == []
    {
      assert Fits(job, p);
      var named := data.children[c];
      ChildPath(p, Step(c, ""));
      assert ValidColumn(job.schema, TableAt(job.schema, p), c);
      forall k | IsKeyed(job.schema, p + [Step(c, k)])
        ensures job.schema.tables[TableAt(job.schema, p)].references[c].shape == Keyed
      {
        ChildPath(p, Step(c, k));
      }
    }

    /** The child column as it is, and what is left of it without the children that are no longer named. */
    method TakeColumn(p: Path, data: Data, c: Name, u: Uuid, t: Name, isNew: bool, ghost done: set<Name>)
      returns (columnData: RefValue, updated: RefValue)
      requires Ready() && Told() && NodeAt(job.root, p) == Some(data) && t == TableAt(job.schema, p) && c in data.children
      requires Placed(job, created, p) && u == Place(job, created, p) && isNew == Exist(job, p).None?
      requires c in ChildColumns(job, p) && c !in done
      requires u in rows && rows[u] == PartialRow(job, created, p, done)
      requires Untouched(job, Snap(), ColumnsRegion(job, p, {c}))
      modifies this`planned, validator`creates, validator`updates, validator`deletes
      ensures Ready() && Told()
      ensures columnData == OldColumn(job, p, c)
      ensures updated == Remainder(job.schema, job.base, OldColumn(job, p, c), KeysAt(job, p, c))
      ensures Snap() == old(Snap()).(deletes := planned)
      ensures if isNew then Snap() == old(Snap()) else Stage(job, old(Snap()), Snap(), iset{}, iset{}, iset{At(p, c)})
    {
      StartColumn(job, p, c);
      columnData := if isNew then NoRows(job.schema.tables[t].references[c].shape) else rows[u].refs[c];
      updated := columnData;
      if !isNew {
        updated := EmptyChildColumn(p, c, u, t, data.children[c].entries.Keys);
      }
    }

    /** What is left of a child column, and the rows of its new entries. */
    method TakeEntries(p: Path, data: Data, c: Name, u: Uuid, t: Name, isNew: bool, ghost done: set<Name>)
      returns (updated: RefValue, children: map<string, Uuid>, ghost b: State)
      requires Ready() && Told() && NodeAt(job.root, p) == Some(data) && t == TableAt(job.schema, p) && c in data.children
      requires Placed(job, created, p) && u == Place(job, created, p) && isNew == Exist(job, p).None?
      requires c in ChildColumns(job, p) && c !in done
      requires u in rows && rows[u] == PartialRow(job, created, p, done)
      requires Untouched(job, Snap(), ColumnsRegion(job, p, {c}))
      requires forall q {:trigger q in created} :: q in ColumnsRegion(job, p, done) && IsNew(job, q) ==> q in created
      modifies this`rows, this`refList, this`labels, this`created, this`planned, validator`creates, validator`updates, validator`deletes
      ensures Ready() && Told()
      ensures Placed(job, created, p) && u == Place(job, created, p)
      ensures u in rows && rows[u] == PartialRow(job, created, p, done)
      ensures updated == Remainder(job.schema, job.base, OldColumn(job, p, c), KeysAt(job, p, c))
      ensures children == NewChildren(job, created, p, c) && EntriesPlaced(job, created, p, c)
      ensures if isNew then old(Snap()) == b else Stage(job, old(Snap()), b, iset{}, iset{}, iset{At(p, c)})
      ensures Stage(job, b, Snap(), ColumnsRegion(job, p, {c}), iset{}, SitesOf(job, ColumnsRegion(job, p, {c})))
      ensures BelowLabelled(job, labels, p, c, KeysAt(job, p, c))
      decreases data, 1, 0, 0
    {
      StartColumn(job, p, c);
      var columnData;
      columnData, updated := TakeColumn(p, data, c, u, t, isNew, done);
      b := Snap();
      ColumnTable(p, data, c);
      children := SetupEntries(p, data, c, u, t, job.schema.tables[t].references[c].refTable, columnData);
      OwnerUnchanged(job, b, Snap(), p, c, done);
    }

    method FillColumn(p: Path, data: Data, c: Name, u: Uuid, t: Name, isNew: bool, ghost done: set<Name>)
      requires Ready() && Told() && NodeAt(job.root, p) == Some(data) && t == TableAt(job.schema, p) && c in data.children
      requires Placed(job, created, p) && u == Place(job, created, p) && isNew == Exist(job, p).None?
      requires c in ChildColumns(job, p) && c !in done
      requires u in rows && rows[u] == PartialRow(job, created, p, done)
      requires Untouched(job, Snap(), ColumnsRegion(job, p, {c}))
      requires forall q {:trigger q in created} :: q in ColumnsRegion(job, p, done) && IsNew(job, q) ==> q in created
      modifies this`rows, this`refList, this`labels, this`created, this`planned, validator`creates, validator`updates, validator`deletes
      ensures Ready() && Told()
      ensures ColumnStage(job, old(Snap()), Snap(), p, c)
      ensures u in rows && rows[u] == PartialRow(job, created, p, done + {c})
      ensures AllLabelled(job, Snap(), ColumnsRegion(job, p, {c}))
      decreases data, 1, 0, 1
    {
      StartColumn(job, p, c);
      ghost var a := Snap();
      var updated, children;
      ghost var b;
      updated, children, b := TakeEntries(p, data, c, u, t, isNew, done);
      ColumnTable(p, data, c);
      StoreColumn(p, data, c, u, job.schema.tables[t].references[c].refTable, updated, children, done, a, b);
    }

    /** Re-keys the entries of a column if their table has no index. */
    method LabelEntries(p: Path, data: Data, c: Name, ct: Name, children: map<string, Uuid>)
      requires Ready() && NodeAt(job.root, p) == Some(data) && c in data.children && Live(job, p)
      requires EntriesPlaced(job, created, p, c) && children == NewChildren(job, created, p, c)
      requires TableAt(job.schema, p) in job.schema.tables
      requires ct in job.schema.tables && c in job.schema.tables[TableAt(job.schema, p)].references
      requires ct == job.schema.tables[TableAt(job.schema, p)].references[c].refTable
      modifies this`labels
      ensures Ready()
      ensures Stage(job, old(Snap()), Snap(), iset{}, iset{p}, iset{})
      ensures forall k {:trigger p + [Step(c, k)]} ::
                k in KeysAt(job, p, c) && Live(job, p + [Step(c, k)]) && IsKeyed(job.schema, p + [Step(c, k)]) ==> p + [Step(c, k)] in labels
      ensures old(Told()) ==> Told()
    {
      ColumnTable(p, data, c);
      if job.schema.tables[ct].indexes == [] {
        Relabel(p, c, children);
      } else {
        EmptyStage(job, Snap(), iset{p});
      }
    }

    /** Stores what is left of a child column together with the rows of the new entries. */
    method StoreColumn(p: Path, data: Data, c: Name, u: Uuid, ct: Name, updated: RefValue, children: map<string, Uuid>,
                       ghost done: set<Name>, ghost a: State, ghost b: State)
      requires Ready() && NodeAt(job.root, p) == Some(data) && c in data.children && c in ChildColumns(job, p)
      requires Placed(job, created, p) && u == Place(job, created, p)
      requires u in rows && rows[u] == PartialRow(job, created, p, done)
      requires TableAt(job.schema, p) in job.schema.tables
      requires ct in job.schema.tables && ct == job.schema.tables[TableAt(job.schema, p)].references[c].refTable
      requires updated == Remainder(job.schema, job.base, OldColumn(job, p, c), KeysAt(job, p, c))
      requires children == NewChildren(job, created, p, c) && EntriesPlaced(job, created, p, c)
      requires if Exist(job, p).Some? then Stage(job, a, b, iset{}, iset{}, iset{At(p, c)}) else a == b
      requires Stage(job, b, Snap(), ColumnsRegion(job, p, {c}), iset{}, SitesOf(job, ColumnsRegion(job, p, {c})))
      requires BelowLabelled(job, labels, p, c, KeysAt(job, p, c))
      modifies this`rows, this`labels
      ensures Ready()
      ensures ColumnStage(job, a, Snap(), p, c)
      ensures u in rows && rows[u] == PartialRow(job, created, p, done + {c})
      ensures AllLabelled(job, Snap(), ColumnsRegion(job, p, {c}))
      ensures old(Told()) ==> Told()
    {
      ghost var d := Snap();
      LabelEntries(p, data, c, ct, children);
      ghost var e := Snap();
      SetColumn(p, c, u, AddRows(updated, children), done);
      ColumnFilled(job, a, b, d, e, Snap(), p, c);
    }

    /** Finds or inserts the row of a location, brings its configuration columns up to date and sets up
        its children; returns nothing when the row is not there and may not be inserted. */
    method SetupRow(p: Path, data: Data, t: Name, row: Option<Uuid>, parent: Option<Owner>) returns (child: Option<Uuid>)
      requires Ready() && Told() && NodeAt(job.root, p) == Some(data) && t == TableAt(job.schema, p)
      requires |p| > 1 ==> Live(job, Parent(p))
      requires if IsKeyed(job.schema, p) then row == Exist(job, p) else row == None
      requires OwnerIs(job, created, p, parent)
      requires Untouched(job, Snap(), RowRegion(job, p))
      modifies this`rows, this`refList, this`labels, this`created, this`planned, validator`creates, validator`updates, validator`deletes
      ensures Ready() && Told()
      ensures Stage(job, old(Snap()), Snap(), RowRegion(job, p), iset{}, SitesOf(job, RowRegion(job, p)))
      ensures child.Some? <==> Live(job, p)
      ensures child.Some? ==> child.value == Place(job, created, p)
      ensures DeepLabelled(job, labels, p)
      decreases data, 2
    {
      ghost var a := Snap();
      FindsExisting(p, row);
      var found := if row.Some? then row else IndexToRow(t, Last(p).key);
      child := OpenRow(p, data, t, found, parent);
      if child.None? {
        NothingBelow(job, p);
        EmptyStage(job, a, iset{});
        return;
      }
      ghost var b := Snap();
      ColumnsBegin(job, a, b, p);
      SetupColumns(p, data, t, child.value, found.None?, b);
      ColumnsEnd(job, a, b, Snap(), p, child.value);
    }

    /** Goes through all child columns of a row. */
    method SetupColumns(p: Path, data: Data, t: Name, u: Uuid, isNew: bool, ghost b: State)
      requires Ready() && Told() && NodeAt(job.root, p) == Some(data) && t == TableAt(job.schema, p) && t in job.schema.tables
      requires isNew == Exist(job, p).None? && b == Snap() && ColumnsState(job, b, Snap(), p, u, {}, ChildColumns(job, p))
      modifies this`rows, this`refList, this`labels, this`created, this`planned, validator`creates, validator`updates, validator`deletes
      ensures Ready() && Told()
      ensures ColumnsState(job, b, Snap(), p, u, ChildColumns(job, p), {})
      decreases data, 1, 1
    {
      var todo := ChildColumns(job, p);
      ghost var done: set<Name> := {};
      while todo != {}
        invariant done !! todo && done + todo == ChildColumns(job, p)
        invariant Told()
        invariant ColumnsState(job, b, Snap(), p, u, done, todo)
        decreases todo
      {
        var c :| c in todo;
        SetupColumn(p, data, c, u, t, isNew, b, done, todo);
        todo := todo - {c};
        done := done + {c};
      }
    }

    /** The row of a location with its configuration columns set, but not its children. */
    method OpenRow(p: Path, data: Data, t: Name, found: Option<Uuid>, parent: Option<Owner>) returns (child: Option<Uuid>)
      requires Ready() && Told() && NodeAt(job.root, p) == Some(data) && t == TableAt(job.schema, p) && t in job.schema.tables && p != []
      requires |p| > 1 ==> Live(job, Parent(p))
      requires found == Exist(job, p) && OwnerIs(job, created, p, parent)
      requires Untouched(job, Snap(), RowRegion(job, p))
      modifies this`rows, this`refList, this`created, validator`creates, validator`updates, validator`deletes
      ensures Ready() && Told()
      ensures child.Some? <==> Live(job, p)
      ensures child.None? ==> Snap() == old(Snap())
      ensures child.Some? ==> RowOpened(old(Snap()), p, child.value)
    {
      assert p <= p;
      if found.None? {
        child := InsertRowCheck(data, t);
        if child.Some? {
          assert IsNew(job, p) && p in RowRegion(job, p);
          RecordNew(p, data, t, child.value, parent, old(Snap()));
        }
      } else {
        assert IsOld(job, p, found.value) && p in RowRegion(job, p);
        UpdateOld(p, data, t, found.value, parent);
        child := found;
      }
    }

    ghost predicate RowOpened(a: State, p: Path, u: Uuid)
      reads this, validator
    {
      && Opened(job, a, Snap(), p)
      && Placed(job, created, p) && u == Place(job, created, p)
      && u in rows && rows[u] == PartialRow(job, created, p, {})
    }

    /** Enters an inserted row in the lists. */
    method RecordNew(p: Path, data: Data, t: Name, u: Uuid, parent: Option<Owner>, ghost a: State)
      requires WellPosed(job) && ValidGraph(GraphOf(job.schema, job.base)) && Inv(job, a) && IsNew(job, p)
      requires NodeAt(job.root, p) == Some(data) && t == TableAt(job.schema, p) && t in job.schema.tables && p != []
      requires Untouched(job, a, RowRegion(job, p)) && p in RowRegion(job, p)
      requires u !in a.rows && Snap() == a.(rows := a.rows[u := InitialRow(job.schema, t, data)])
      requires Told() && OwnerIs(job, created, p, parent)
      modifies this`refList, this`created, validator`creates, validator`updates, validator`deletes
      ensures Ready() && Told() && RowOpened(a, p, u)
      ensures validator.creates == old(validator.creates) + [ResourceOp(u, t, parent)]
      ensures validator.updates == old(validator.updates) && validator.deletes == old(validator.deletes)
    {
      validator.AddResourceOp(CREATE, u, t, parent);
      refList := refList[(t, Last(p).key) := u];
      created := created[p := u];
      AddedOp(u, t, parent);
      RowsOfAppend(old(validator.creates), [ResourceOp(u, t, parent)]);
      NewRowOpened(job, a, Snap(), p, data, u, parent, old(validator.creates), validator.updates, validator.deletes);
    }

    /** Enters a changed row in the lists. */
    method NoteUpdate(u: Uuid, t: Name, parent: Option<Owner>)
      modifies validator`creates, validator`updates, validator`deletes
      ensures Snap() == old(Snap()).(updates := old(Snap()).updates + {u})
      ensures validator.updates == old(validator.updates) + [ResourceOp(u, t, parent)]
      ensures validator.creates == old(validator.creates) && validator.deletes == old(validator.deletes)
    {
      validator.AddResourceOp(UPDATE, u, t, parent);
      AddedOp(u, t, parent);
      RowsOfAppend(old(validator.updates), [ResourceOp(u, t, parent)]);
    }

    /** Brings the configuration columns of a committed row up to date. */
    method UpdateOld(p: Path, data: Data, t: Name, u: Uuid, parent: Option<Owner>)
      requires Ready() && Told() && NodeAt(job.root, p) == Some(data) && t == TableAt(job.schema, p) && t in job.schema.tables && p != []
      requires IsOld(job, p, u) && p in RowRegion(job, p) && OwnerIs(job, created, p, parent)
      requires Untouched(job, Snap(), RowRegion(job, p))
      modifies this`rows, validator`creates, validator`updates, validator`deletes
      ensures Ready() && Told() && RowOpened(old(Snap()), p, u)
      ensures validator.updates == old(validator.updates) + if Changed(job, p) then [ResourceOp(u, t, parent)] else []
      ensures validator.creates == old(validator.creates) && validator.deletes == old(validator.deletes)
    {
      ghost var a := Snap();
      OldStartRow(job, p, u);
      var changed := SetConfigColumns(data.config, u, t);
      if changed {
        NoteUpdate(u, t, parent);
      }
      CommittedRowOpened(job, a, Snap(), p, u, parent, validator.creates, old(validator.updates), validator.deletes, validator.updates);
    }

    lemma AddedOp(u: Uuid, t: Name, parent: Option<Owner>)
      ensures RowsOf([ResourceOp(u, t, parent)]) == {u}
    {
      assert [ResourceOp(u, t, parent)][0].row == u;
    }

    // ---------- top-level tables ----------

    /** Puts up for deletion the rows of a top-level table that the configuration does not mention. */
    method EmptyTable(t: Name)
      requires Ready() && Told() && IsTopLevel(job.schema, t) && t !in job.root
      modifies this`planned, validator`creates, validator`updates, validator`deletes
      ensures Ready() && Told()
      ensures ColumnStage(job, old(Snap()), Snap(), [], t)
    {
      ghost var a := Snap();
      var deleteList := set u | u in rows && rows[u].table == t && DeleteCheck(job.schema, t);
      TableRows(job, a, t, deleteList);
      AbsentTable(job, a, t, deleteList, PlanAll(GraphOf(job.schema, job.base), deleteList));
      if deleteList != {} {
        TopDroppable(t, deleteList);
        var _ := DropChildren(deleteList, t, None);
      } else {
        assert a.deletes + multiset(PlanAll(GraphOf(job.schema, job.base), {})) == a.deletes;
      }
    }

    lemma TopDroppable(t: Name, dropped: set<Uuid>)
      requires Ready() && forall w {:trigger w in dropped} {:trigger DroppedAt(job, [], t, w)} :: w in dropped <==> DroppedAt(job, [], t, w)
      requires forall w :: w in dropped ==> w in job.base && !Claimed(job, w)
      ensures Droppable(dropped, t, None)
    {
      forall w | w in dropped
        ensures w in rows && rows[w].table == t && Described(job.schema, job.base, ResourceOp(w, t, None))
      {
        assert DroppedAt(job, [], t, w);
        assert OldRow(job, rows, w);
      }
      DroppedScattered(job, [], t, dropped);
    }

    /** Sets up the rows of a top-level table that the configuration mentions; its other rows stay. */
    method FillTable(t: Name)
      requires Ready() && Told() && t in job.root
      requires Untouched(job, Snap(), ColumnsRegion(job, [], {t}))
      modifies this`rows, this`refList, this`labels, this`created, this`planned, validator`creates, validator`updates, validator`deletes
      ensures Ready() && Told()
      ensures ColumnStage(job, old(Snap()), Snap(), [], t)
      ensures AllLabelled(job, Snap(), ColumnsRegion(job, [], {t}))
    {
      var entries := job.root[t].entries;
      TableBegin(job, Snap(), t);
      var todo := entries.Keys;
      ghost var start, done: set<string>, children: map<string, Uuid> := Snap(), {}, map[];
      while todo != {}
        invariant done + todo == entries.Keys
        invariant Told()
        invariant EntriesState(job, start, Snap(), [], t, done, todo, children)
        decreases todo
      {
        var k :| k in todo;
        children := FillEntry(t, k, start, done, todo, children);
        todo := todo - {k};
        done := done + {k};
      }
      TableEnd(job, start, Snap(), t, children);
    }

    /** Sets up one entry of a top-level table. */
    method FillEntry(t: Name, k: string, ghost start: State, ghost done: set<string>, ghost todo: set<string>,
                     ghost children: map<string, Uuid>)
      returns (ghost after: map<string, Uuid>)
      requires Ready() && Told() && t in job.root && k in job.root[t].entries && k in todo
      requires done + todo == job.root[t].entries.Keys && EntriesState(job, start, Snap(), [], t, done, todo, children)
      modifies this`rows, this`refList, this`labels, this`created, this`planned, validator`creates, validator`updates, validator`deletes
      ensures Ready() && Told()
      ensures EntriesState(job, start, Snap(), [], t, done + {k}, todo - {k}, after)
    {
      ghost var before := Snap();
      UntouchedEntry(job, before, [], t, todo, k);
      TopLocation(job, t, k);
      var child := SetupRow([Step(t, k)], job.root[t].entries[k], t, None, None);
      EntriesNext(job, start, before, Snap(), [], t, done, todo, children, k, child);
      after := if child.Some? then children[k := child.value] else children;
    }

    /** Empties or fills one top-level table. */
    method SetupTable(t: Name, ghost start: State, ghost done: set<Name>, ghost todo: set<Name>)
      requires Ready() && Told() && IsTopLevel(job.schema, t) && t in todo && t !in done
      requires TablesState(job, start, Snap(), done, todo)
      modifies this`rows, this`refList, this`labels, this`created, this`planned, validator`creates, validator`updates, validator`deletes
      ensures Ready() && Told()
      ensures TablesState(job, start, Snap(), done + {t}, todo - {t})
    {
      ghost var before := Snap();
      UntouchedColumns(job, before, [], {t}, todo);
      if t !in job.root {
        EmptyTable(t);
        NoLocations(job, t);
      } else {
        FillTable(t);
      }
      TablesNext(job, start, before, Snap(), done, todo, t);
    }

    /** The first phase: all top-level tables, in any order. */
    method SetupTables()
      requires Ready() && Told() && Untouched(job, Snap(), AllLocations(job))
      modifies this`rows, this`refList, this`labels, this`created, this`planned, validator`creates, validator`updates, validator`deletes
      ensures Ready() && Told()
      ensures Stage(job, old(Snap()), Snap(), AllLocations(job), iset{[]}, AllSites(job))
      ensures AllLabelled(job, Snap(), AllLocations(job))
    {
      var todo := set t | t in job.schema.tables && IsTopLevel(job.schema, t);
      ghost var start, tables, done: set<Name> := Snap(), todo, {};
      TablesBegin(job, start, tables);
      while todo != {}
        invariant done !! todo && done + todo == tables
        invariant Told()
        invariant TablesState(job, start, Snap(), done, todo)
        decreases todo
      {
        var t :| t in todo;
        SetupTable(t, start, done, todo);
        todo := todo - {t};
        done := done + {t};
      }
      TablesEnd(job, start, Snap(), tables);
    }
  }
}
