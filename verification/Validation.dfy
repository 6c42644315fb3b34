/** Deferred resource operations and the validators that run over them (ops/validatoradapter.py). */
module Validation {
  import opened Options
  import opened Database

  datatype Kind = CREATE | UPDATE | DELETE
  datatype Owner = Owner(row: Uuid, table: Name)

  /** An operation on a row of a table, with the row and table that contain it unless it is at the top. */
  datatype ResourceOp = ResourceOp(row: Uuid, table: Name, parent: Option<Owner>)

  /** What the plugins say: accept, raise a ValidationError, or raise anything else. */
  datatype Verdict = Pass | Rejected(error: string) | Crashed

  type Validators = (Kind, ResourceOp, Db) -> Verdict

  function RowsOf(ops: seq<ResourceOp>): set<Uuid> {
    set i | 0 <= i < |ops| :: ops[i].row
  }

  lemma RowsOfAppend(a: seq<ResourceOp>, b: seq<ResourceOp>)
    ensures RowsOf(a + b) == RowsOf(a) + RowsOf(b)
  {
    forall u | u in RowsOf(a) + RowsOf(b)
      ensures u in RowsOf(a + b)
    {
      if i :| 0 <= i < |a| && a[i].row == u {
        assert (a + b)[i].row == u;
      } else {
        var i :| 0 <= i < |b| && b[i].row == u;
        assert (a + b)[|a| + i].row == u;
      }
    }
  }

  /** No row is listed twice. */
  ghost predicate Distinct(ops: seq<ResourceOp>) {
    forall i, j :: 0 <= i < j < |ops| ==> ops[i].row != ops[j].row
  }

  ghost function RowSeq(ops: seq<ResourceOp>): seq<Uuid> {
    seq(|ops|, i requires 0 <= i < |ops| => ops[i].row)
  }

  /** How often each row is listed. */
  ghost function RowBag(ops: seq<ResourceOp>): multiset<Uuid> {
    multiset(RowSeq(ops))
  }

  lemma RowBagAppend(a: seq<ResourceOp>, b: seq<ResourceOp>)
    ensures RowBag(a + b) == RowBag(a) + RowBag(b)
  {
    assert RowSeq(a + b) == RowSeq(a) + RowSeq(b);
  }

  lemma RowBagHas(ops: seq<ResourceOp>, u: Uuid)
    ensures u in RowBag(ops) <==> u in RowsOf(ops)
  {
    assert forall i :: 0 <= i < |ops| ==> RowSeq(ops)[i] == ops[i].row;
    assert u in RowBag(ops) <==> u in RowSeq(ops);
  }

  lemma {:induction false} OnceEach(rows: seq<Uuid>, u: Uuid)
    requires forall i, j :: 0 <= i < j < |rows| ==> rows[i] != rows[j]
    ensures multiset(rows)[u] <= 1
    decreases |rows|
  {
    if rows != [] {
      var n := |rows| - 1;
      OnceEach(rows[..n], u);
      assert rows == rows[..n] + [rows[n]];
      assert rows[n] !in rows[..n];
      assert multiset(rows) == multiset(rows[..n]) + multiset{rows[n]};
    }
  }

  lemma Twice(rows: seq<Uuid>, i: nat, j: nat)
    requires i < j < |rows| && rows[i] == rows[j]
    ensures multiset(rows)[rows[i]] > 1
  {
    assert rows == rows[..j] + rows[j..];
    assert rows[i] in rows[..j] && rows[j] in rows[j..] by {
      assert rows[..j][i] == rows[i] && rows[j..][0] == rows[j];
    }
    assert multiset(rows) == multiset(rows[..j]) + multiset(rows[j..]);
  }

  /** A row is counted more than once exactly if it is listed twice. */
  lemma DistinctExactly(ops: seq<ResourceOp>)
    ensures Distinct(ops) <==> forall u :: RowBag(ops)[u] <= 1
  {
    var rows := RowSeq(ops);
    if Distinct(ops) {
      forall u
        ensures RowBag(ops)[u] <= 1
      {
        OnceEach(rows, u);
      }
    } else {
      var i, j :| 0 <= i < j < |ops| && ops[i].row == ops[j].row;
      Twice(rows, i, j);
      assert RowBag(ops)[rows[i]] > 1;
    }
  }

  lemma BagOfDistinct(ops: seq<ResourceOp>)
    requires Distinct(ops)
    ensures RowBag(ops) == multiset(RowsOf(ops))
  {
    DistinctExactly(ops);
    forall u
      ensures RowBag(ops)[u] == multiset(RowsOf(ops))[u]
    {
      RowBagHas(ops, u);
    }
  }

  function ErrorOf(v: Verdict): seq<string> {
    if v.Rejected? then [v.error] else []
  }

  /** The replica once the deletions in `ops` have been validated and carried out in order. */
  function AfterDeletes(verdict: Validators, ops: seq<ResourceOp>, db: Db): (after: Db)
    ensures after.Keys <= db.Keys && forall u :: u in after ==> after[u] == db[u]
  {
    if ops == [] then db
    else
      var last := ops[|ops| - 1];
      var before := AfterDeletes(verdict, ops[..|ops| - 1], db);
      if verdict(DELETE, last, before).Pass? then before - {last.row} else before
  }

  function DeleteErrors(verdict: Validators, ops: seq<ResourceOp>, db: Db): seq<string> {
    if ops == [] then []
    else
      var init := ops[..|ops| - 1];
      DeleteErrors(verdict, init, db) + ErrorOf(verdict(DELETE, ops[|ops| - 1], AfterDeletes(verdict, init, db)))
  }

  /** What one more deletion makes of the replica, and what error it adds. */
  lemma DeleteStep(verdict: Validators, ops: seq<ResourceOp>, db: Db, i: nat)
    requires i < |ops|
    ensures var before := AfterDeletes(verdict, ops[..i], db);
            && AfterDeletes(verdict, ops[..i + 1], db) == (if verdict(DELETE, ops[i], before).Pass? then before - {ops[i].row} else before)
            && DeleteErrors(verdict, ops[..i + 1], db) == DeleteErrors(verdict, ops[..i], db) + ErrorOf(verdict(DELETE, ops[i], before))
  {
    assert ops[..i + 1][..i] == ops[..i];
  }

  lemma SameErrors(a: seq<string>, b: seq<string>, c: seq<string>)
    ensures a + b + c == a + (b + c)
  {
  }

  function ModificationErrors(verdict: Validators, kind: Kind, ops: seq<ResourceOp>, db: Db): seq<string> {
    if ops == [] then []
    else
      ModificationErrors(verdict, kind, ops[..|ops| - 1], db) + ErrorOf(verdict(kind, ops[|ops| - 1], db))
  }

  lemma ErrorsAdd(errors: seq<string>, v: Verdict)
    ensures errors + ErrorOf(v) == [] <==> errors == [] && !v.Rejected?
    ensures forall e :: e in errors + ErrorOf(v) <==> e in errors || v == Rejected(e)
  {
    assert |errors + ErrorOf(v)| == |errors| + |ErrorOf(v)|;
  }

  /** The errors are those of the operations that are rejected. */
  lemma {:induction false} ModificationErrorsExactly(verdict: Validators, kind: Kind, ops: seq<ResourceOp>, db: Db)
    ensures ModificationErrors(verdict, kind, ops, db) == [] <==> forall op :: op in ops ==> !verdict(kind, op, db).Rejected?
    ensures forall e :: e in ModificationErrors(verdict, kind, ops, db) <==> exists op :: op in ops && verdict(kind, op, db) == Rejected(e)
    decreases |ops|
  {
    if ops != [] {
      var n := |ops| - 1;
      assert ops == ops[..n] + [ops[n]];
      ModificationErrorsExactly(verdict, kind, ops[..n], db);
      ErrorsAdd(ModificationErrors(verdict, kind, ops[..n], db), verdict(kind, ops[n], db));
    }
  }

  /** The verdict on the i-th deletion, taken when its turn comes. */
  function VerdictAt(verdict: Validators, ops: seq<ResourceOp>, db: Db, i: nat): Verdict
    requires i < |ops|
  {
    verdict(DELETE, ops[i], AfterDeletes(verdict, ops[..i], db))
  }

  lemma VerdictAtInit(verdict: Validators, ops: seq<ResourceOp>, db: Db, i: nat)
    requires i < |ops| - 1
    ensures VerdictAt(verdict, ops[..|ops| - 1], db, i) == VerdictAt(verdict, ops, db, i)
  {
    assert ops[..|ops| - 1][..i] == ops[..i];
  }

  /** A row goes exactly when one of its deletions is accepted at its turn. */
  lemma {:induction false} DeletesExactly(verdict: Validators, ops: seq<ResourceOp>, db: Db, u: Uuid)
    requires u in db
    ensures u !in AfterDeletes(verdict, ops, db) <==>
            exists i :: 0 <= i < |ops| && ops[i].row == u && VerdictAt(verdict, ops, db, i).Pass?
  {
    if ops != [] {
      var n := |ops| - 1;
      DeletesExactly(verdict, ops[..n], db, u);
      forall i | 0 <= i < n
        ensures VerdictAt(verdict, ops[..n], db, i) == VerdictAt(verdict, ops, db, i)
      {
        VerdictAtInit(verdict, ops, db, i);
      }
      if u !in AfterDeletes(verdict, ops[..n], db) {
        var i :| 0 <= i < n && ops[..n][i].row == u && VerdictAt(verdict, ops[..n], db, i).Pass?;
        assert ops[i].row == u && VerdictAt(verdict, ops, db, i).Pass?;
      } else if u !in AfterDeletes(verdict, ops, db) {
        assert ops[n].row == u && VerdictAt(verdict, ops, db, n).Pass?;
      }
    }
  }

  /** Every deletion is accepted when its turn comes. */
  ghost predicate DeletesAccepted(verdict: Validators, ops: seq<ResourceOp>, db: Db) {
    forall i {:trigger VerdictAt(verdict, ops, db, i)} :: 0 <= i < |ops| ==> VerdictAt(verdict, ops, db, i).Pass?
  }

  lemma {:induction false} DeletesWhenAccepted(verdict: Validators, ops: seq<ResourceOp>, db: Db)
    requires DeletesAccepted(verdict, ops, db)
    ensures AfterDeletes(verdict, ops, db) == db - RowsOf(ops)
  {
    if ops == [] {
      assert db - RowsOf(ops) == db;
    } else {
      var init, last := ops[..|ops| - 1], ops[|ops| - 1];
      forall i | 0 <= i < |init|
        ensures VerdictAt(verdict, init, db, i).Pass?
      {
        VerdictAtInit(verdict, ops, db, i);
      }
      DeletesWhenAccepted(verdict, init, db);
      RowsOfLast(ops);
      assert VerdictAt(verdict, ops, db, |ops| - 1).Pass?;
      assert db - RowsOf(init) - {last.row} == db - (RowsOf(init) + {last.row});
    }
  }

  /** No validator crashes on a deletion of this run. */
  ghost predicate NoDeletionCrashes(verdict: Validators, ops: seq<ResourceOp>, db: Db) {
    forall i {:trigger VerdictAt(verdict, ops, db, i)} :: 0 <= i < |ops| ==> !VerdictAt(verdict, ops, db, i).Crashed?
  }

  /** One of the deletions of the row is accepted when its turn comes. */
  ghost predicate Accepted(verdict: Validators, ops: seq<ResourceOp>, db: Db, u: Uuid) {
    exists i :: 0 <= i < |ops| && ops[i].row == u && VerdictAt(verdict, ops, db, i).Pass?
  }

  ghost predicate AllAccepted(verdict: Validators, ops: seq<ResourceOp>, db: Db) {
    forall u {:trigger Accepted(verdict, ops, db, u)} :: u in RowsOf(ops) ==> Accepted(verdict, ops, db, u)
  }

  /** All rows that are to be deleted go exactly when each has a deletion that is accepted. */
  lemma AllDeletedExactly(verdict: Validators, ops: seq<ResourceOp>, db: Db)
    requires RowsOf(ops) <= db.Keys
    ensures AllAccepted(verdict, ops, db) <==> AfterDeletes(verdict, ops, db) == db - RowsOf(ops)
  {
    forall u | u in db
      ensures u !in AfterDeletes(verdict, ops, db) <==> Accepted(verdict, ops, db, u)
    {
      DeletesExactly(verdict, ops, db, u);
    }
    assert forall u :: Accepted(verdict, ops, db, u) ==> u in RowsOf(ops);
  }

  /** A run without errors in which no validator crashes on a deletion carries out every deletion. */
  lemma CleanRunDeletes(verdict: Validators, ops: seq<ResourceOp>, db: Db)
    requires NoDeletionCrashes(verdict, ops, db) && DeleteErrors(verdict, ops, db) == []
    ensures AllAccepted(verdict, ops, db)
    ensures AfterDeletes(verdict, ops, db) == db - RowsOf(ops)
  {
    DeleteErrorsExactly(verdict, ops, db);
    DeletesWhenAccepted(verdict, ops, db);
    forall u | u in RowsOf(ops)
      ensures Accepted(verdict, ops, db, u)
    {
      var i :| 0 <= i < |ops| && ops[i].row == u;
      assert VerdictAt(verdict, ops, db, i).Pass?;
    }
  }

  lemma RowsOfLast(ops: seq<ResourceOp>)
    requires ops != []
    ensures RowsOf(ops) == RowsOf(ops[..|ops| - 1]) + {ops[|ops| - 1].row}
  {
    var init, last := ops[..|ops| - 1], ops[|ops| - 1];
    RowsOfAppend(init, [last]);
    assert ops == init + [last];
    assert RowsOf([last]) == {last.row} by {
      assert [last][0].row == last.row;
    }
  }

  /** No errors only means that nothing was rejected: a deletion whose validator crashed is dropped
      without a trace. */
  lemma {:induction false} DeleteErrorsExactly(verdict: Validators, ops: seq<ResourceOp>, db: Db)
    ensures DeleteErrors(verdict, ops, db) == [] <==>
            forall i :: 0 <= i < |ops| ==> !VerdictAt(verdict, ops, db, i).Rejected?
  {
    if ops != [] {
      var n := |ops| - 1;
      DeleteErrorsExactly(verdict, ops[..n], db);
      forall i | 0 <= i < n
        ensures VerdictAt(verdict, ops[..n], db, i) == VerdictAt(verdict, ops, db, i)
      {
        VerdictAtInit(verdict, ops, db, i);
      }
      var init, last := DeleteErrors(verdict, ops[..n], db), ErrorOf(VerdictAt(verdict, ops, db, n));
      assert DeleteErrors(verdict, ops, db) == init + last;
      if DeleteErrors(verdict, ops, db) == [] {
        assert |init + last| == 0;
        assert init == [] && last == [];
        assert forall i :: 0 <= i < n ==> !VerdictAt(verdict, ops[..n], db, i).Rejected?;
      } else if init != [] {
        var i :| 0 <= i < n && VerdictAt(verdict, ops[..n], db, i).Rejected?;
        assert VerdictAt(verdict, ops, db, i).Rejected?;
      } else {
        assert VerdictAt(verdict, ops, db, n).Rejected?;
      }
    }
  }

  class ValidatorAdapter {
    const verdict: Validators
    var creates: seq<ResourceOp>
    var updates: seq<ResourceOp>
    var deletes: seq<ResourceOp>
    var errors: seq<string>

    constructor (verdict: Validators)
      ensures this.verdict == verdict
      ensures creates == [] && updates == [] && deletes == [] && errors == []
    {
      this.verdict := verdict;
      creates, updates, deletes, errors := [], [], [], [];
    }

    predicate HasErrors()
      reads this
    {
      |errors| > 0
    }

    method AddResourceOp(kind: Kind, row: Uuid, table: Name, parent: Option<Owner>)
      modifies this`creates, this`updates, this`deletes
      ensures creates == if kind == CREATE then old(creates) + [ResourceOp(row, table, parent)] else old(creates)
      ensures updates == if kind == UPDATE then old(updates) + [ResourceOp(row, table, parent)] else old(updates)
      ensures deletes == if kind == DELETE then old(deletes) + [ResourceOp(row, table, parent)] else old(deletes)
    {
      var op := ResourceOp(row, table, parent);
      match kind
      case CREATE => creates := creates + [op];
      case UPDATE => updates := updates + [op];
      case DELETE => deletes := deletes + [op];
    }

    method ExecValidatorWithOp(kind: Kind, op: ResourceOp, db: Db) returns (success: bool)
      modifies this`errors
      ensures success == verdict(kind, op, db).Pass?
      ensures errors == old(errors) + ErrorOf(verdict(kind, op, db))
    {
      match verdict(kind, op, db)
      case Pass =>
        success := true;
      case Rejected(error) =>
        errors := errors + [error];
        success := false;
      case Crashed =>
        success := false;
    }

    method ExecDeletionValidatorsAndDelete(db: Db) returns (after: Db)
      modifies this`errors
      ensures after == AfterDeletes(verdict, deletes, db)
      ensures errors == old(errors) + DeleteErrors(verdict, deletes, db)
    {
      after := db;
      for i := 0 to |deletes|
        invariant after == AfterDeletes(verdict, deletes[..i], db)
        invariant errors == old(errors) + DeleteErrors(verdict, deletes[..i], db)
      {
        DeleteStep(verdict, deletes, db, i);
        SameErrors(old(errors), DeleteErrors(verdict, deletes[..i], db), ErrorOf(verdict(DELETE, deletes[i], after)));
        var success := ExecValidatorWithOp(DELETE, deletes[i], after);
        if success {
          after := after - {deletes[i].row};
        }
      }
      assert deletes[..|deletes|] == deletes;
    }

    method ExecAll(kind: Kind, ops: seq<ResourceOp>, db: Db)
      modifies this`errors
      ensures errors == old(errors) + ModificationErrors(verdict, kind, ops, db)
    {
      for i := 0 to |ops|
        invariant errors == old(errors) + ModificationErrors(verdict, kind, ops[..i], db)
      {
        assert ops[..i + 1][..i] == ops[..i];
        var _ := ExecValidatorWithOp(kind, ops[i], db);
      }
      assert ops[..|ops|] == ops;
    }

    method ExecModificationValidators(db: Db)
      modifies this`errors
      ensures errors == old(errors) + ModificationErrors(verdict, CREATE, creates, db)
                                    + ModificationErrors(verdict, UPDATE, updates, db)
    {
      ExecAll(CREATE, creates, db);
      ExecAll(UPDATE, updates, db);
    }

    /** Deletions are validated on the replica as it was and carried out one by one; creations and
        updates are validated on what is left. */
    method ExecValidatorsWithOps(db: Db) returns (after: Db)
      modifies this`errors
      ensures after == AfterDeletes(verdict, deletes, db)
      ensures errors == old(errors) + DeleteErrors(verdict, deletes, db)
                                    + ModificationErrors(verdict, CREATE, creates, after)
                                    + ModificationErrors(verdict, UPDATE, updates, after)
    {
      after := ExecDeletionValidatorsAndDelete(db);
      ExecModificationValidators(after);
    }
  }
}
