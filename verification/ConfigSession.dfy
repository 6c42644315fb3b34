/** Writing a whole configuration in one transaction (ops/dc.py, write). */
module ConfigSession {
  import opened Options
  import opened Database
  import opened Validation
  import opened Containment
  import opened Deletion
  import opened ConfigTree
  import opened ConfigTarget
  import opened ConfigStages
  import opened ConfigTables
  import opened ConfigWrite
  import opened ConfigRefs
  import opened ConfigRead
  import opened ConfigOutcome
  import opened ConfigTheorems
  import opened ConfigOperations

  datatype WriteResult =
    | Committed
    | Unresolved
    | Invalid(errors: seq<string>)
    | Refused

  // ---------- from one phase to the next ----------

  function Blank(base: Db, refList: RefList): State {
    State(base, refList, map[], map[], {}, {}, multiset{})
  }

  lemma BlankState(j: Job, refList: RefList)
    requires WellPosed(j) && Listable(j, refList)
    ensures ValidGraph(GraphOf(j.schema, j.base))
    ensures Inv(j, Blank(j.base, refList)) && Untouched(j, Blank(j.base, refList), AllLocations(j))
  {
    GraphIsValid(j.schema, j.base);
    forall q, r | IsOld(j, q, r)
      ensures r in j.base
    {
      ExistingRow(j, q);
    }
  }

  /** The first phase has written all locations. */
  ghost predicate FirstPhase(j: Job, start: State, st: State)
    requires ValidGraph(GraphOf(j.schema, j.base))
  {
    && Stage(j, start, st, AllLocations(j), iset{[]}, AllSites(j))
    && AllLabelled(j, st, AllLocations(j))
  }

  /** The second phase can start where the first one ends. */
  lemma ReadyForReferences(j: Job, refList: RefList, st: State)
    requires WellPosed(j) && ValidGraph(GraphOf(j.schema, j.base)) && FirstPhase(j, Blank(j.base, refList), st)
    ensures DistinctPlaces(j, st.created)
    ensures forall q {:trigger Placed(j, st.created, q)} :: Placed(j, st.created, q) ==> Place(j, st.created, q) in st.rows
    ensures RefsPending(j, st.refList, st.labels, st.created, st.rows, AllLocations(j))
  {
    forall p, q | Placed(j, st.created, p) && Placed(j, st.created, q) && p != q
      ensures Place(j, st.created, p) != Place(j, st.created, q)
    {
      PlacesDiffer(j, st, p, q);
    }
    forall q | Placed(j, st.created, q)
      ensures Place(j, st.created, q) in st.rows
    {
      PlacedRow(j, st, q);
    }
    forall q | q in AllLocations(j)
      ensures BuiltAt(j, st.rows, st.created, q) && Findable(j, st.rows, st.refList, st.labels, st.created, q)
    {
      assert BuiltAt(j, st.rows, st.created, q);
      FindsPlaced(j, st, q);
    }
  }

  /** An unnamed committed row is left alone by both phases. */
  lemma UnnamedRow(j: Job, st: State, rows: Db, v: Uuid)
    requires WellPosed(j) && Inv(j, st) && RefStage(j, st.refList, st.created, st.rows, rows, AllLocations(j))
    requires v in j.base && !Claimed(j, v)
    ensures v in rows && rows[v] == j.base[v]
  {
    assert OldRow(j, st.rows, v);
    forall q | Placed(j, st.created, q)
      ensures Place(j, st.created, q) != v
    {
      if Exist(j, q).Some? {
        assert IsOld(j, q, Exist(j, q).value);
      } else {
        assert CreatedRow(j, st.rows, st.refList, st.created, q);
      }
    }
    assert Foreign(j, st.created, v);
  }

  lemma CreatedRows(j: Job, refList: RefList, st: State)
    requires WellPosed(j) && ValidGraph(GraphOf(j.schema, j.base)) && FirstPhase(j, Blank(j.base, refList), st)
    ensures forall q {:trigger q in st.created} :: q in st.created <==> IsNew(j, q)
    ensures forall q {:trigger st.created[q]} :: q in st.created ==> st.created[q] !in j.base
    ensures Injective(st.created)
    ensures forall v {:trigger v in st.rows} :: v in st.rows ==> v in j.base || v in st.created.Values
  {
    forall q | q in st.created
      ensures st.created[q] !in j.base
    {
      assert CreatedRow(j, st.rows, st.refList, st.created, q);
    }
  }

  lemma LocatedRows(j: Job, refList: RefList, st: State)
    requires WellPosed(j) && ValidGraph(GraphOf(j.schema, j.base)) && FirstPhase(j, Blank(j.base, refList), st)
    ensures forall q {:trigger Located(j, st.refList, st.created, q)} :: Live(j, q) ==> Located(j, st.refList, st.created, q)
  {
    ReadyForReferences(j, refList, st);
    forall q | Live(j, q)
      ensures Located(j, st.refList, st.created, q)
    {
      assert q in AllLocations(j);
      assert Findable(j, st.rows, st.refList, st.labels, st.created, q);
    }
  }

  lemma DeletesAreDoomed(j: Job, refList: RefList, st: State)
    requires ValidGraph(GraphOf(j.schema, j.base)) && FirstPhase(j, Blank(j.base, refList), st)
    ensures forall v {:trigger st.deletes[v]} :: v in st.deletes <==> Doomed(j, AllSites(j), v)
    ensures forall v {:trigger st.deletes[v]} :: v in st.deletes ==> v in j.base && !Claimed(j, v)
  {
  }

  /** What both phases leave before anything is deleted. */
  lemma BothPhases(j: Job, refList: RefList, st: State, rows: Db, deletes: set<Uuid>)
    requires WellPosed(j) && ValidGraph(GraphOf(j.schema, j.base)) && FirstPhase(j, Blank(j.base, refList), st)
    requires RefStage(j, st.refList, st.created, st.rows, rows, AllLocations(j))
    requires forall v :: v in deletes <==> v in st.deletes
    ensures Leaves(j, st.refList, st.created, deletes, {}, rows)
  {
    CreatedRows(j, refList, st);
    LocatedRows(j, refList, st);
    DeletesAreDoomed(j, refList, st);
    forall v | v in j.base && !Claimed(j, v)
      ensures Untold(j, {}, rows, v)
    {
      UnnamedRow(j, st, rows, v);
    }
    forall q | Live(j, q)
      ensures FinalAt(j, st.refList, st.created, rows, q)
    {
      assert q in AllLocations(j);
    }
  }

  /** Carrying out all deletions takes away exactly the rows that were put up for it. */
  lemma DeletionsCarriedOut(j: Job, refList: RefList, created: map<Path, Uuid>, deletes: set<Uuid>, rows: Db)
    requires WellPosed(j) && ValidGraph(GraphOf(j.schema, j.base)) && Leaves(j, refList, created, deletes, {}, rows)
    ensures IsOutcome(j, refList, created, deletes, rows - deletes)
  {
    var db := rows - deletes;
    forall q | Live(j, q)
      ensures FinalAt(j, refList, created, db, q)
    {
      assert FinalAt(j, refList, created, rows, q);
      if Exist(j, q).Some? {
        assert IsOld(j, q, Exist(j, q).value);
      } else {
        assert q in created && created[q] !in j.base;
      }
    }
    forall v | v in j.base && !Claimed(j, v)
      ensures Untold(j, deletes, db, v)
    {
      assert Untold(j, {}, rows, v);
    }
  }

  // ---------- the transaction ----------

  lemma CountedOnce(j: Job, refList: RefList, st: State)
    requires ValidGraph(GraphOf(j.schema, j.base)) && FirstPhase(j, Blank(j.base, refList), st)
    ensures forall v {:trigger st.deletes[v]} :: st.deletes[v] <= 1
  {
  }

  lemma ListedOnce(j: Job, refList: RefList, st: State, deletes: seq<ResourceOp>)
    requires ValidGraph(GraphOf(j.schema, j.base)) && FirstPhase(j, Blank(j.base, refList), st) && RowBag(deletes) == st.deletes
    ensures Distinct(deletes) && forall v :: v in RowsOf(deletes) <==> v in st.deletes
  {
    CountedOnce(j, refList, st);
    DistinctExactly(deletes);
    forall v
      ensures v in RowsOf(deletes) <==> v in st.deletes
    {
      RowBagHas(deletes, v);
    }
  }

  lemma ScheduledIs(j: Job, refList: RefList, st: State, creates: seq<ResourceOp>, updates: seq<ResourceOp>, deletes: seq<ResourceOp>)
    requires ValidGraph(GraphOf(j.schema, j.base)) && FirstPhase(j, Blank(j.base, refList), st)
    requires RowsOf(creates) == st.creates && RowsOf(updates) == st.updates && RowBag(deletes) == st.deletes
    requires Recorded(j, st.created, creates, updates, deletes)
    ensures Scheduled(j, st.created, creates, updates, deletes)
    ensures forall v :: v in RowsOf(deletes) <==> v in st.deletes
  {
    DeletesAreDoomed(j, refList, st);
    ListedOnce(j, refList, st, deletes);
  }

  /** Both phases have been gone through; `resolved` tells whether every reference was found.  If so every
      location has its final row, the other rows are as they were, and the validators hear of exactly what
      is new, changed or to be deleted. */
  ghost predicate Prepared(j: Job, refList: RefList, created: map<Path, Uuid>, creates: seq<ResourceOp>, updates: seq<ResourceOp>,
                           deletes: seq<ResourceOp>, rows: Db, resolved: bool)
  {
    && ValidGraph(GraphOf(j.schema, j.base))
    && Listable(j, refList)
    && Scheduled(j, created, creates, updates, deletes)
    && (resolved <==> RegionResolves(j, refList, AllLocations(j)))
    && (resolved ==> Leaves(j, refList, created, RowsOf(deletes), {}, rows))
    && (resolved ==> Reported(j.schema, j.base, rows, creates, updates, deletes))
  }

  function ErrorsOf(verdict: Validators, creates: seq<ResourceOp>, updates: seq<ResourceOp>, deletes: seq<ResourceOp>, rows: Db): seq<string> {
    var after := AfterDeletes(verdict, deletes, rows);
    DeleteErrors(verdict, deletes, rows) + ModificationErrors(verdict, CREATE, creates, after) + ModificationErrors(verdict, UPDATE, updates, after)
  }

  lemma Prepended(errors: seq<string>)
    ensures [] + errors == errors
  {
  }

  lemma NoErrors(verdict: Validators, creates: seq<ResourceOp>, updates: seq<ResourceOp>, deletes: seq<ResourceOp>, rows: Db)
    requires ErrorsOf(verdict, creates, updates, deletes, rows) == []
    ensures DeleteErrors(verdict, deletes, rows) == []
  {
    assert |ErrorsOf(verdict, creates, updates, deletes, rows)| >= |DeleteErrors(verdict, deletes, rows)|;
  }

  /** The rows put up for deletion are all there when their turn comes. */
  lemma PlannedAreThere(j: Job, refList: RefList, created: map<Path, Uuid>, deletes: set<Uuid>, rows: Db)
    requires ValidGraph(GraphOf(j.schema, j.base)) && Leaves(j, refList, created, deletes, {}, rows)
    ensures deletes <= rows.Keys
  {
    forall v | v in deletes
      ensures v in rows
    {
      assert Untold(j, {}, rows, v);
    }
  }

  /** What is left of a complete configuration is what its writing is to leave exactly when each row put up
      for deletion has a deletion that is accepted at its turn. */
  lemma WrittenExactly(j: Job, refList: RefList, created: map<Path, Uuid>, verdict: Validators, deletes: seq<ResourceOp>, rows: Db)
    requires WellPosed(j) && ValidGraph(GraphOf(j.schema, j.base)) && Complete(j)
    requires Leaves(j, refList, created, RowsOf(deletes), {}, rows)
    ensures Written(j, refList, created, RowsOf(deletes), AfterDeletes(verdict, deletes, rows)) <==> AllAccepted(verdict, deletes, rows)
  {
    PlannedAreThere(j, refList, created, RowsOf(deletes), rows);
    AllDeletedExactly(verdict, deletes, rows);
    var after := AfterDeletes(verdict, deletes, rows);
    if AllAccepted(verdict, deletes, rows) {
      DeletionsCarriedOut(j, refList, created, RowsOf(deletes), rows);
    } else if Written(j, refList, created, RowsOf(deletes), after) {
      forall v | v in RowsOf(deletes)
        ensures Accepted(verdict, deletes, rows, v)
      {
        assert Untold(j, RowsOf(deletes), after, v);
        DeletesExactly(verdict, deletes, rows, v);
      }
    }
  }

  /** What is committed of a complete configuration when no validator crashed on a deletion. */
  lemma CommittedIsWritten(j: Job, refList: RefList, created: map<Path, Uuid>, verdict: Validators, creates: seq<ResourceOp>,
                           updates: seq<ResourceOp>, deletes: seq<ResourceOp>, rows: Db)
    requires WellPosed(j) && ValidGraph(GraphOf(j.schema, j.base)) && Complete(j)
    requires Leaves(j, refList, created, RowsOf(deletes), {}, rows)
    requires NoDeletionCrashes(verdict, deletes, rows) && ErrorsOf(verdict, creates, updates, deletes, rows) == []
    ensures Written(j, refList, created, RowsOf(deletes), AfterDeletes(verdict, deletes, rows))
  {
    NoErrors(verdict, creates, updates, deletes, rows);
    CleanRunDeletes(verdict, deletes, rows);
    WrittenExactly(j, refList, created, verdict, deletes, rows);
  }

  /** A commit leaves what writing the configuration is to leave exactly when each row put up for deletion has
      a deletion that is accepted, as it has when no validator crashes on a deletion of this run; then the
      replica stands for the configuration. */
  ghost predicate StandsExactly(j: Job, refList: RefList, created: map<Path, Uuid>, config: Config, verdict: Validators,
                                deletes: seq<ResourceOp>, rows: Db, db: Db)
  {
    && (Written(j, refList, created, RowsOf(deletes), db) <==> AllAccepted(verdict, deletes, rows))
    && (NoDeletionCrashes(verdict, deletes, rows) ==> AllAccepted(verdict, deletes, rows))
    && (AllAccepted(verdict, deletes, rows) && SYSTEM_TABLE !in config.tables ==> ValidSchema(j.schema) && ReadAll(j.schema, db) == Some(config))
  }

  /** What a commit of a complete configuration stands for. */
  lemma CommittedStandsFor(j: Job, refList: RefList, created: map<Path, Uuid>, config: Config, verdict: Validators,
                           creates: seq<ResourceOp>, updates: seq<ResourceOp>, deletes: seq<ResourceOp>, rows: Db)
    requires WellPosed(j) && ValidGraph(GraphOf(j.schema, j.base)) && Complete(j) && j.root == RootOf(config)
    requires Leaves(j, refList, created, RowsOf(deletes), {}, rows)
    requires ErrorsOf(verdict, creates, updates, deletes, rows) == []
    ensures StandsExactly(j, refList, created, config, verdict, deletes, rows, AfterDeletes(verdict, deletes, rows))
  {
    WrittenExactly(j, refList, created, verdict, deletes, rows);
    if NoDeletionCrashes(verdict, deletes, rows) {
      CommittedIsWritten(j, refList, created, verdict, creates, updates, deletes, rows);
    }
    if AllAccepted(verdict, deletes, rows) && SYSTEM_TABLE !in config.tables {
      WriteThenRead(j, refList, created, RowsOf(deletes), AfterDeletes(verdict, deletes, rows), config);
    }
  }

  function ResultOf(errors: seq<string>, accepted: bool): WriteResult {
    if errors != [] then Invalid(errors) else if accepted then Committed else Refused
  }

  /** A commit takes place when the server accepts and no validator rejects anything: a deletion at its turn,
      a creation or update on what the deletions leave. */
  lemma CommitsExactly(verdict: Validators, creates: seq<ResourceOp>, updates: seq<ResourceOp>, deletes: seq<ResourceOp>, rows: Db,
                       accepted: bool)
    ensures ResultOf(ErrorsOf(verdict, creates, updates, deletes, rows), accepted).Committed? <==>
              && accepted
              && (forall i :: 0 <= i < |deletes| ==> !VerdictAt(verdict, deletes, rows, i).Rejected?)
              && (forall op :: op in creates ==> !verdict(CREATE, op, AfterDeletes(verdict, deletes, rows)).Rejected?)
              && (forall op :: op in updates ==> !verdict(UPDATE, op, AfterDeletes(verdict, deletes, rows)).Rejected?)
  {
    var after := AfterDeletes(verdict, deletes, rows);
    DeleteErrorsExactly(verdict, deletes, rows);
    ModificationErrorsExactly(verdict, CREATE, creates, after);
    ModificationErrorsExactly(verdict, UPDATE, updates, after);
    var a, b, c := DeleteErrors(verdict, deletes, rows), ModificationErrors(verdict, CREATE, creates, after),
                   ModificationErrors(verdict, UPDATE, updates, after);
    assert |a + b + c| == |a| + |b| + |c|;
  }

  class ConfigSession {
    const schema: Schema
    /** The committed replica. */
    var db: Db
    /** Rows inserted by this and earlier writes, by table and index. */
    var refList: RefList

    constructor (schema: Schema, db: Db)
      ensures this.schema == schema && this.db == db && refList == map[]
    {
      this.schema, this.db, this.refList := schema, db, map[];
    }

    function JobOf(indexMap: map<(Name, seq<string>), Uuid>, system: Uuid, config: Config): Job
      reads this
    {
      Job(schema, db, indexMap, system, RootOf(config))
    }

    /** The first phase: sets up all rows. */
    method SetupRows(job: Job, validator: ValidatorAdapter) returns (rows: Db, labels: map<Path, Uuid>, ghost st: State)
      requires WellPosed(job) && Listable(job, refList)
      requires validator.creates == [] && validator.updates == [] && validator.deletes == []
      modifies this`refList, validator`creates, validator`updates, validator`deletes
      ensures ValidGraph(GraphOf(job.schema, job.base)) && FirstPhase(job, Blank(job.base, old(refList)), st)
      ensures st.rows == rows && st.labels == labels && st.refList == refList
      ensures forall v :: v in RowsOf(validator.deletes) <==> v in st.deletes
      ensures Scheduled(job, st.created, validator.creates, validator.updates, validator.deletes)
    {
      ghost var before := refList;
      BlankState(job, refList);
      var writer := new ConfigWriter(job, validator, refList);
      assert writer.Snap() == Blank(job.base, before);
      writer.SetupTables();
      st := writer.Snap();
      rows, labels, refList := writer.rows, writer.labels, writer.refList;
      ScheduledIs(job, before, st, validator.creates, validator.updates, validator.deletes);
    }

    /** The two phases of a write: sets up all rows, then their references. */
    method Prepare(job: Job, verdict: Validators)
      returns (resolved: bool, validator: ValidatorAdapter, rows: Db, ghost created: map<Path, Uuid>)
      requires WellPosed(job) && Listable(job, refList)
      modifies this`refList
      ensures fresh(validator) && validator.verdict == verdict && validator.errors == []
      ensures Prepared(job, refList, created, validator.creates, validator.updates, validator.deletes, rows, resolved)
    {
      ghost var before := refList;
      validator := new ValidatorAdapter(verdict);
      var labels;
      ghost var st;
      rows, labels, st := SetupRows(job, validator);
      created := st.created;
      ReadyForReferences(job, before, st);
      var references := new ReferenceWriter(job, refList, labels, created, rows);
      resolved := references.SetupAllReferences();
      rows := references.rows;
      if resolved {
        BothPhases(job, before, st, rows, RowsOf(validator.deletes));
        ScheduledIsReported(job, refList, created, validator.creates, validator.updates, validator.deletes, rows);
      }
    }

    /** Runs the validators and commits when they report nothing and the server accepts. */
    method Finish(validator: ValidatorAdapter, rows: Db, accepted: bool) returns (result: WriteResult)
      requires validator.errors == []
      modifies this`db, validator`errors
      ensures result == ResultOf(ErrorsOf(validator.verdict, validator.creates, validator.updates, validator.deletes, rows), accepted)
      ensures db == if result.Committed? then AfterDeletes(validator.verdict, validator.deletes, rows) else old(db)
    {
      var after := validator.ExecValidatorsWithOps(rows);
      Prepended(DeleteErrors(validator.verdict, validator.deletes, rows));
      if validator.HasErrors() {
        result := Invalid(validator.errors);
      } else if !accepted {
        result := Refused;
      } else {
        db := after;
        result := Committed;
      }
    }

    /** Ends a write all of whose references were found. */
    method Commit(job: Job, config: Config, ghost created: map<Path, Uuid>, validator: ValidatorAdapter, rows: Db, accepted: bool)
      returns (result: WriteResult)
      requires WellPosed(job) && job.root == RootOf(config) && validator.errors == []
      requires Prepared(job, refList, created, validator.creates, validator.updates, validator.deletes, rows, true)
      modifies this`db, validator`errors
      ensures result == ResultOf(ErrorsOf(validator.verdict, validator.creates, validator.updates, validator.deletes, rows), accepted)
      ensures db == if result.Committed? then AfterDeletes(validator.verdict, validator.deletes, rows) else old(db)
      ensures result.Committed? && Complete(job) ==>
                StandsExactly(job, refList, created, config, validator.verdict, validator.deletes, rows, db)
    {
      result := Finish(validator, rows, accepted);
      if result.Committed? && Complete(job) {
        CommittedStandsFor(job, refList, created, config, validator.verdict, validator.creates, validator.updates, validator.deletes, rows);
      }
    }

    /** Writes a configuration.  Nothing is committed when a reference leads nowhere, when a validator
        reports an error, or when the server refuses the transaction. */
    method Write(indexMap: map<(Name, seq<string>), Uuid>, system: Uuid, config: Config, verdict: Validators, accepted: bool)
      returns (result: WriteResult, validator: ValidatorAdapter, ghost created: map<Path, Uuid>, ghost rows: Db)
      requires WellPosed(JobOf(indexMap, system, config)) && Listable(JobOf(indexMap, system, config), refList)
      modifies this`db, this`refList
      ensures fresh(validator)
      ensures Prepared(old(JobOf(indexMap, system, config)), refList, created,
                       validator.creates, validator.updates, validator.deletes, rows, !result.Unresolved?)
      ensures !result.Unresolved? ==>
                result == ResultOf(ErrorsOf(verdict, validator.creates, validator.updates, validator.deletes, rows), accepted)
      ensures db == if result.Committed? then AfterDeletes(verdict, validator.deletes, rows) else old(db)
      ensures result.Committed? && Complete(old(JobOf(indexMap, system, config))) ==>
                StandsExactly(old(JobOf(indexMap, system, config)), refList, created, config, verdict, validator.deletes, rows, db)
    {
      var job := JobOf(indexMap, system, config);
      var resolved, adapter, prepared, places := Prepare(job, verdict);
      validator, created, rows, result := adapter, places, prepared, Unresolved;
      if resolved {
        result := Commit(job, config, created, validator, prepared, accepted);
      }
    }
  }
}
