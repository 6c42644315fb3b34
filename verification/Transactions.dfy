/** Pending transactions, and the loop that commits them while it takes finished ones off the list it
    goes through (opsrest/manager.py, opsrest/transaction.py). */
module Transactions {

  datatype Status = Pending | Incomplete | Success | Unchanged | Aborted | TryAgain | NotLocked | Failed

  /** What committing each transaction gives this time round. */
  type Outcome = nat -> Status

  predicate IsFinal(outcome: Outcome, id: nat) {
    outcome(id) != Incomplete
  }

  // ---------- one round, on transaction numbers ----------

  /** The list after one round: taking an element off makes the loop skip the one behind it. */
  function Survivors(ids: seq<nat>, outcome: Outcome): seq<nat> {
    if ids == [] then []
    else if !IsFinal(outcome, ids[0]) then [ids[0]] + Survivors(ids[1..], outcome)
    else if |ids| == 1 then []
    else [ids[1]] + Survivors(ids[2..], outcome)
  }

  /** Whether the loop comes to the k-th element. */
  predicate Visited(ids: seq<nat>, outcome: Outcome, k: nat)
    requires k < |ids|
    decreases k, 0
  {
    k == 0 || !Removed(ids, outcome, k - 1)
  }

  predicate Removed(ids: seq<nat>, outcome: Outcome, k: nat)
    requires k < |ids|
    decreases k, 1
  {
    Visited(ids, outcome, k) && IsFinal(outcome, ids[k])
  }

  /** The elements at the places that are not taken off. */
  function Kept(ids: seq<nat>, outcome: Outcome, n: nat): seq<nat>
    requires n <= |ids|
  {
    if n == 0 then []
    else Kept(ids, outcome, n - 1) + if Removed(ids, outcome, n - 1) then [] else [ids[n - 1]]
  }

  lemma StayStep(ids: seq<nat>, outcome: Outcome, k: nat)
    requires k < |ids| && Visited(ids, outcome, k) && !IsFinal(outcome, ids[k])
    ensures Kept(ids, outcome, k + 1) == Kept(ids, outcome, k) + [ids[k]]
    ensures k + 1 < |ids| ==> Visited(ids, outcome, k + 1)
  {
  }

  /** An element that is taken off makes the loop skip the next one, which stays. */
  lemma PopStep(ids: seq<nat>, outcome: Outcome, k: nat)
    requires k < |ids| && Visited(ids, outcome, k) && IsFinal(outcome, ids[k])
    ensures Removed(ids, outcome, k) && Kept(ids, outcome, k + 1) == Kept(ids, outcome, k)
    ensures k + 1 < |ids| ==> !Visited(ids, outcome, k + 1) && !Removed(ids, outcome, k + 1)
                              && Kept(ids, outcome, k + 2) == Kept(ids, outcome, k) + [ids[k + 1]]
    ensures k + 2 < |ids| ==> Visited(ids, outcome, k + 2)
  {
  }

  lemma Regroup(a: seq<nat>, x: nat, b: seq<nat>)
    ensures (a + [x]) + b == a + ([x] + b)
  {
  }

  lemma SurvivorsStep(ids: seq<nat>, outcome: Outcome, k: nat)
    requires k < |ids|
    ensures Survivors(ids[k..], outcome) ==
            if !IsFinal(outcome, ids[k]) then [ids[k]] + Survivors(ids[k + 1..], outcome)
            else if k + 1 == |ids| then []
            else [ids[k + 1]] + Survivors(ids[k + 2..], outcome)
  {
    var rest := ids[k..];
    assert rest[1..] == ids[k + 1..];
    if k + 1 < |ids| {
      assert rest[2..] == ids[k + 2..];
    }
  }

  /** From a place that the loop comes to, it goes on as over a list that starts there. */
  lemma {:induction false} SurvivorsFrom(ids: seq<nat>, outcome: Outcome, k: nat)
    requires k <= |ids| && (k < |ids| ==> Visited(ids, outcome, k))
    ensures Kept(ids, outcome, |ids|) == Kept(ids, outcome, k) + Survivors(ids[k..], outcome)
    decreases |ids| - k
  {
    if k < |ids| {
      SurvivorsStep(ids, outcome, k);
      if !IsFinal(outcome, ids[k]) {
        StayStep(ids, outcome, k);
        SurvivorsFrom(ids, outcome, k + 1);
        Regroup(Kept(ids, outcome, k), ids[k], Survivors(ids[k + 1..], outcome));
      } else {
        PopStep(ids, outcome, k);
        if k + 1 < |ids| {
          SurvivorsFrom(ids, outcome, k + 2);
          Regroup(Kept(ids, outcome, k), ids[k + 1], Survivors(ids[k + 2..], outcome));
        }
      }
    }
  }

  /** What is left keeps its order and is exactly what is not removed: the transactions visited and
      found incomplete, and those right behind a removed one. */
  lemma SurvivorsAreKept(ids: seq<nat>, outcome: Outcome)
    ensures Survivors(ids, outcome) == Kept(ids, outcome, |ids|)
  {
    SurvivorsFrom(ids, outcome, 0);
    assert ids[0..] == ids;
  }

  // ---------- many rounds ----------

  function Rounds(ids: seq<nat>, outcomes: seq<Outcome>): seq<nat>
    decreases |outcomes|
  {
    if outcomes == [] then ids else Rounds(Survivors(ids, outcomes[0]), outcomes[1..])
  }

  /** Every transaction is finished, for better or worse. */
  ghost predicate AllFinal(outcome: Outcome) {
    forall id :: outcome(id) != Incomplete
  }

  function Halved(n: nat, k: nat): nat {
    if k == 0 then n else Halved(n / 2, k - 1)
  }

  function Power(k: nat): (p: nat)
    ensures p > 0
  {
    if k == 0 then 1 else 2 * Power(k - 1)
  }

  lemma {:induction false} HalvedIsDivided(n: nat, k: nat)
    ensures Halved(n, k) == n / Power(k)
  {
    if k > 0 {
      HalvedIsDivided(n / 2, k - 1);
      DivideTwice(n, Power(k - 1));
    }
  }

  lemma DivideTwice(n: nat, p: nat)
    requires p > 0
    ensures n / 2 / p == n / (2 * p)
  {
    var m := n / 2;
    var q, r := m / p, m % p;
    assert m == p * q + r;
    assert n == 2 * m + n % 2;
    assert n == (2 * p) * q + (2 * r + n % 2);
    Quotient(n, 2 * p, q, 2 * r + n % 2);
  }

  lemma Monotone(d: nat, a: nat, b: nat)
    requires a <= b
    ensures d * a <= d * b
  {
    assert d * b == d * a + d * (b - a);
  }

  lemma Quotient(n: nat, d: nat, q: nat, r: nat)
    requires d > 0 && r < d && n == d * q + r
    ensures n / d == q
  {
    var x, y := n / d, n % d;
    assert n == d * x + y && y < d;
    if x < q {
      Monotone(d, x + 1, q);
    } else if q < x {
      Monotone(d, q + 1, x);
    }
  }

  lemma {:induction false} HalfSurvives(ids: seq<nat>, outcome: Outcome)
    requires AllFinal(outcome)
    ensures |Survivors(ids, outcome)| == |ids| / 2
    decreases |ids|
  {
    if ids != [] {
      assert IsFinal(outcome, ids[0]);
      if |ids| > 1 {
        HalfSurvives(ids[2..], outcome);
      }
    }
  }

  /** Even when every transaction is finished, k rounds leave the k-th half of the list. */
  lemma {:induction false} RoundsHalve(ids: seq<nat>, outcomes: seq<Outcome>)
    requires forall i, id :: 0 <= i < |outcomes| ==> outcomes[i](id) != Incomplete
    ensures |Rounds(ids, outcomes)| == |ids| / Power(|outcomes|)
  {
    HalvedIsDivided(|ids|, |outcomes|);
    RoundsLength(ids, outcomes);
  }

  lemma {:induction false} RoundsLength(ids: seq<nat>, outcomes: seq<Outcome>)
    requires forall i :: 0 <= i < |outcomes| ==> AllFinal(outcomes[i])
    ensures |Rounds(ids, outcomes)| == Halved(|ids|, |outcomes|)
    decreases |outcomes|
  {
    if outcomes != [] {
      HalfSurvives(ids, outcomes[0]);
      RoundsLength(Survivors(ids, outcomes[0]), outcomes[1..]);
    }
  }

  // ---------- the manager ----------

  class Transaction {
    const id: nat
    var status: Status
    var signalled: bool

    constructor (id: nat)
      ensures this.id == id && status == Pending && !signalled
    {
      this.id, status, signalled := id, Pending, false;
    }

    method Commit(outcome: Outcome)
      modifies this`status
      ensures status == outcome(id)
    {
      status := outcome(id);
    }
  }

  function Ids(list: seq<Transaction>): (ids: seq<nat>)
    ensures |ids| == |list|
  {
    seq(|list|, i requires 0 <= i < |list| => list[i].id)
  }

  ghost predicate Distinct(list: seq<Transaction>) {
    forall i, k :: 0 <= i < k < |list| ==> list[i] != list[k] && list[i].id != list[k].id
  }

  /** The loop stands at place `index` of `list`, where the k-th of the original transactions is. */
  ghost predicate StandsAt(all: seq<Transaction>, outcome: Outcome, list: seq<Transaction>, index: nat, k: nat) {
    && k <= |all|
    && list == KeptOf(all, outcome, k) + all[k..]
    && (if k < |all| then index == |KeptOf(all, outcome, k)| && Visited(Ids(all), outcome, k) else index >= |list|)
  }

  class TransactionList {
    var list: seq<Transaction>

    constructor ()
      ensures list == []
    {
      list := [];
    }

    method AddTxn(tx: Transaction)
      modifies this
      ensures list == old(list) + [tx]
    {
      list := list + [tx];
    }

    /** Commits a transaction and signals it when it is through. */
    method Settle(tx: Transaction, outcome: Outcome, ghost all: seq<Transaction>, ghost k: nat, ghost marks: Marks)
      returns (final: bool, ghost now: Marks)
      requires Distinct(all) && k < |all| && all[k] == tx && HasMarks(all, marks)
      modifies tx
      ensures final == IsFinal(outcome, tx.id)
      ensures now == Marked(marks.status[k := outcome(tx.id)], if final then marks.signalled[k := true] else marks.signalled)
      ensures HasMarks(all, now)
    {
      tx.Commit(outcome);
      final := tx.status != Incomplete;
      if final {
        tx.signalled := true;
      }
      now := Marked(marks.status[k := outcome(tx.id)], if final then marks.signalled[k := true] else marks.signalled);
    }

    method Pop(index: nat, ghost all: seq<Transaction>, ghost marks: Marks)
      requires index < |list| && HasMarks(all, marks)
      modifies this
      ensures HasMarks(all, marks)
      ensures list == old(list)[..index] + old(list)[index + 1..]
    {
      list := list[..index] + list[index + 1..];
    }

    /** One turn of the loop: commits the transaction at `index` and takes it off when it is through. */
    method CommitAt(index: nat, outcome: Outcome, ghost all: seq<Transaction>, ghost before: Marks, ghost marks: Marks, ghost k: nat)
      returns (final: bool, ghost after: Marks, ghost next: nat)
      requires Distinct(all) && index < |list| && StandsAt(all, outcome, list, index, k)
      requires HasMarks(all, marks) && Handled(Ids(all), outcome, before, marks, k)
      modifies this, all
      ensures k < next && StandsAt(all, outcome, list, index + 1, next)
      ensures HasMarks(all, after) && Handled(Ids(all), outcome, before, after, next)
      ensures SawIncomplete(Ids(all), outcome, next) <==> SawIncomplete(Ids(all), outcome, k) || !final
    {
      var tx := list[index];
      StandingAt(all, outcome, list, index, k);
      final, after := Settle(tx, outcome, all, k, marks);
      if final {
        TakenOff(all, outcome, k, list, index, before, marks, after);
        Pop(index, all, after);
        next := if k + 1 < |all| then k + 2 else k + 1;
      } else {
        LeftOn(all, outcome, k, list, index, before, marks, after);
        next := k + 1;
      }
    }

    /** Commits the transactions on the list and takes off those that are through. */
    method CommitAll(outcome: Outcome, ghost before: Marks) returns (incomplete: bool, ghost after: Marks)
      requires Distinct(list) && HasMarks(list, before)
      modifies this, list
      ensures Ids(list) == Survivors(old(Ids(list)), outcome)
      ensures list == KeptOf(old(list), outcome, |old(list)|) && Distinct(list)
      ensures HasMarks(old(list), after) && Handled(old(Ids(list)), outcome, before, after, |old(list)|)
      ensures incomplete <==> SawIncomplete(old(Ids(list)), outcome, |old(list)|)
    {
      ghost var all := list;
      after := before;
      incomplete := false;
      var index := 0;
      ghost var k := 0;
      while index < |list|
        invariant 0 <= index && k <= |all|
        invariant StandsAt(all, outcome, list, index, k)
        invariant HasMarks(all, after) && Handled(Ids(all), outcome, before, after, k)
        invariant incomplete <==> SawIncomplete(Ids(all), outcome, k)
        decreases |all| - k
      {
        var final;
        final, after, k := CommitAt(index, outcome, all, before, after, k);
        if !final {
          incomplete := true;
        }
        index := index + 1;
      }
      LoopEnds(all, outcome, list, index, k);
      KeptIsDistinct(all, outcome, |all|);
    }
  }

  lemma StandingAt(all: seq<Transaction>, outcome: Outcome, list: seq<Transaction>, index: nat, k: nat)
    requires StandsAt(all, outcome, list, index, k) && index < |list|
    ensures k < |all| && list[index] == all[k] && Ids(all)[k] == all[k].id && Visited(Ids(all), outcome, k)
  {
  }

  lemma TakenOff(all: seq<Transaction>, outcome: Outcome, k: nat, list: seq<Transaction>, index: nat, start: Marks, before: Marks, after: Marks)
    requires StandsAt(all, outcome, list, index, k) && k < |all| && index < |list| && IsFinal(outcome, all[k].id)
    requires Handled(Ids(all), outcome, start, before, k)
    requires after == Marked(before.status[k := outcome(all[k].id)], before.signalled[k := true])
    ensures var n := if k + 1 < |all| then k + 2 else k + 1;
            && StandsAt(all, outcome, list[..index] + list[index + 1..], index + 1, n)
            && Handled(Ids(all), outcome, start, after, n)
            && (SawIncomplete(Ids(all), outcome, n) <==> SawIncomplete(Ids(all), outcome, k))
  {
    SkipMarks(Ids(all), outcome, start, before, after, k);
    SkipElement(all, outcome, k, list, index);
  }

  lemma LeftOn(all: seq<Transaction>, outcome: Outcome, k: nat, list: seq<Transaction>, index: nat, start: Marks, before: Marks, after: Marks)
    requires StandsAt(all, outcome, list, index, k) && k < |all| && !IsFinal(outcome, all[k].id)
    requires Handled(Ids(all), outcome, start, before, k)
    requires after == Marked(before.status[k := outcome(all[k].id)], before.signalled)
    ensures StandsAt(all, outcome, list, index + 1, k + 1)
    ensures Handled(Ids(all), outcome, start, after, k + 1) && SawIncomplete(Ids(all), outcome, k + 1)
  {
    StayElement(all, outcome, k, list, index);
    StayMarks(Ids(all), outcome, start, before, after, k);
  }

  lemma LoopEnds(all: seq<Transaction>, outcome: Outcome, list: seq<Transaction>, index: nat, k: nat)
    requires StandsAt(all, outcome, list, index, k) && index >= |list|
    ensures k == |all| && Ids(list) == Survivors(Ids(all), outcome) && list == KeptOf(all, outcome, |all|)
  {
    SurvivorsAreKept(Ids(all), outcome);
    assert k == |all| ==> list == KeptOf(all, outcome, |all|);
  }

  class Manager {
    const transactions: TransactionList
    var timer: bool

    constructor ()
      ensures fresh(transactions) && transactions.list == [] && !timer && Distinct(transactions.list)
    {
      transactions := new TransactionList();
      timer := false;
    }

    method MonitorTransaction(tx: Transaction)
      modifies this, transactions
      ensures transactions.list == old(transactions.list) + [tx] && timer
      ensures old(Distinct(transactions.list)) && tx !in old(transactions.list) && tx.id !in old(Ids(transactions.list)) ==>
                Distinct(transactions.list)
    {
      ghost var before := transactions.list;
      assert forall i :: 0 <= i < |before| ==> before[i] in before && before[i].id == Ids(before)[i];
      transactions.AddTxn(tx);
      timer := true;
    }

    /** One round over the pending transactions, run on a database change or by the timer.  The first one is
        visited, and any other unless the one before it was visited and is not incomplete.  Those visited
        get their status; unless that is incomplete they are signalled and leave the list.  The timer is
        set exactly if one that was visited is incomplete. */
    method CheckTransactions(outcome: Outcome) returns (ghost visited: seq<bool>)
      requires Distinct(transactions.list)
      modifies this, transactions, transactions.list
      ensures Ids(transactions.list) == Survivors(old(Ids(transactions.list)), outcome) && Distinct(transactions.list)
      ensures |visited| == |old(transactions.list)| && (visited != [] ==> visited[0])
      ensures forall i :: 0 < i < |visited| ==>
                (visited[i] <==> !(visited[i - 1] && outcome(old(transactions.list)[i - 1].id) != Incomplete))
      ensures forall i {:trigger visited[i]} :: 0 <= i < |visited| ==>
                var tx := old(transactions.list)[i];
                && tx.status == (if visited[i] then outcome(tx.id) else old(tx.status))
                && tx.signalled == (old(tx.signalled) || (visited[i] && outcome(tx.id) != Incomplete))
                && (tx in transactions.list <==> !(visited[i] && outcome(tx.id) != Incomplete))
      ensures timer <==> exists i :: 0 <= i < |visited| && visited[i] && outcome(old(transactions.list)[i].id) == Incomplete
    {
      ghost var all := transactions.list;
      ghost var before := MarksOf(all);
      ghost var after: Marks;
      var incomplete;
      incomplete, after := transactions.CommitAll(outcome, before);
      timer := incomplete;
      visited := AllVisited(all, outcome);
      RoundExactly(all, outcome, before, after);
    }
  }

  ghost function AllVisited(all: seq<Transaction>, outcome: Outcome): seq<bool> {
    seq(|all|, i requires 0 <= i < |all| => Visited(Ids(all), outcome, i))
  }

  lemma RoundExactly(all: seq<Transaction>, outcome: Outcome, before: Marks, after: Marks)
    requires Distinct(all) && Handled(Ids(all), outcome, before, after, |all|)
    ensures var visited := AllVisited(all, outcome);
            && |visited| == |all| && (visited != [] ==> visited[0])
            && (forall i :: 0 < i < |all| ==> (visited[i] <==> !(visited[i - 1] && outcome(all[i - 1].id) != Incomplete)))
            && (forall i {:trigger visited[i]} :: 0 <= i < |all| ==>
                  && after.status[i] == (if visited[i] then outcome(all[i].id) else before.status[i])
                  && after.signalled[i] == (before.signalled[i] || (visited[i] && outcome(all[i].id) != Incomplete))
                  && (all[i] in KeptOf(all, outcome, |all|) <==> !(visited[i] && outcome(all[i].id) != Incomplete)))
            && (SawIncomplete(Ids(all), outcome, |all|) <==> exists i :: 0 <= i < |all| && visited[i] && outcome(all[i].id) == Incomplete)
  {
    KeptExactly(all, outcome);
    var visited := AllVisited(all, outcome);
    assert forall i :: 0 <= i < |all| ==> visited[i] == Visited(Ids(all), outcome, i);
  }

  lemma {:induction false} KeptIsDistinct(all: seq<Transaction>, outcome: Outcome, n: nat)
    requires Distinct(all) && n <= |all|
    ensures Distinct(KeptOf(all, outcome, n)) && forall tx :: tx in KeptOf(all, outcome, n) ==> tx in all[..n]
  {
    if n > 0 {
      KeptIsDistinct(all, outcome, n - 1);
      assert all[..n] == all[..n - 1] + [all[n - 1]];
      forall tx | tx in KeptOf(all, outcome, n - 1)
        ensures tx != all[n - 1] && tx.id != all[n - 1].id
      {
        var i :| 0 <= i < n - 1 && all[i] == tx;
      }
    }
  }

  ghost function MarksOf(list: seq<Transaction>): (marks: Marks)
    reads list
    ensures HasMarks(list, marks)
  {
    Marked(seq(|list|, i requires 0 <= i < |list| reads list => list[i].status),
           seq(|list|, i requires 0 <= i < |list| reads list => list[i].signalled))
  }

  lemma KeptExactly(all: seq<Transaction>, outcome: Outcome)
    requires Distinct(all)
    ensures forall i :: 0 <= i < |all| ==> (all[i] in KeptOf(all, outcome, |all|) <==> !Removed(Ids(all), outcome, i))
  {
    forall i | 0 <= i < |all|
      ensures all[i] in KeptOf(all, outcome, |all|) <==> !Removed(Ids(all), outcome, i)
    {
      KeptHas(all, outcome, |all|, i);
    }
  }

  lemma {:induction false} KeptHas(all: seq<Transaction>, outcome: Outcome, n: nat, i: nat)
    requires Distinct(all) && n <= |all| && i < |all|
    ensures all[i] in KeptOf(all, outcome, n) <==> i < n && !Removed(Ids(all), outcome, i)
  {
    if n > 0 {
      KeptHas(all, outcome, n - 1, i);
    }
  }

  /** Status and event of every transaction. */
  datatype Marks = Marked(status: seq<Status>, signalled: seq<bool>)

  ghost predicate HasMarks(list: seq<Transaction>, marks: Marks)
    reads list
  {
    && |marks.status| == |marks.signalled| == |list|
    && (forall i {:trigger list[i]} :: 0 <= i < |list| ==> list[i].status == marks.status[i] && list[i].signalled == marks.signalled[i])
  }

  /** What the loop has done to the first k transactions: committed those it came to and signalled
      those it took off. */
  ghost predicate Handled(ids: seq<nat>, outcome: Outcome, before: Marks, after: Marks, k: nat)
  {
    && |before.status| == |before.signalled| == |after.status| == |after.signalled| == |ids| && k <= |ids|
    && (forall i :: 0 <= i < k ==>
          && after.status[i] == (if Visited(ids, outcome, i) then outcome(ids[i]) else before.status[i])
          && after.signalled[i] == (before.signalled[i] || Removed(ids, outcome, i)))
    && after.status[k..] == before.status[k..]
    && after.signalled[k..] == before.signalled[k..]
  }

  ghost predicate SawIncomplete(ids: seq<nat>, outcome: Outcome, k: nat)
    requires k <= |ids|
  {
    exists i {:trigger Visited(ids, outcome, i)} :: 0 <= i < k && Visited(ids, outcome, i) && !IsFinal(outcome, ids[i])
  }

  lemma StayMarks(ids: seq<nat>, outcome: Outcome, start: Marks, before: Marks, after: Marks, k: nat)
    requires Handled(ids, outcome, start, before, k) && k < |ids| && Visited(ids, outcome, k) && !IsFinal(outcome, ids[k])
    requires after == Marked(before.status[k := outcome(ids[k])], before.signalled)
    ensures Handled(ids, outcome, start, after, k + 1) && SawIncomplete(ids, outcome, k + 1)
  {
    OneMark(start.status, before.status, after.status, k);
    OneMark(start.signalled, before.signalled, after.signalled, k);
  }

  lemma PopMarks(ids: seq<nat>, outcome: Outcome, start: Marks, before: Marks, after: Marks, k: nat)
    requires Handled(ids, outcome, start, before, k) && k < |ids| && Visited(ids, outcome, k) && IsFinal(outcome, ids[k])
    requires after == Marked(before.status[k := outcome(ids[k])], before.signalled[k := true])
    ensures Handled(ids, outcome, start, after, k + 1)
    ensures SawIncomplete(ids, outcome, k + 1) <==> SawIncomplete(ids, outcome, k)
  {
    OneMark(start.status, before.status, after.status, k);
    OneMark(start.signalled, before.signalled, after.signalled, k);
  }

  lemma PassMarks(ids: seq<nat>, outcome: Outcome, start: Marks, marks: Marks, k: nat)
    requires Handled(ids, outcome, start, marks, k) && k < |ids| && !Visited(ids, outcome, k)
    ensures Handled(ids, outcome, start, marks, k + 1)
    ensures SawIncomplete(ids, outcome, k + 1) <==> SawIncomplete(ids, outcome, k)
  {
    OneMark(start.status, marks.status, marks.status, k);
    OneMark(start.signalled, marks.signalled, marks.signalled, k);
  }

  lemma SkipMarks(ids: seq<nat>, outcome: Outcome, start: Marks, before: Marks, after: Marks, k: nat)
    requires Handled(ids, outcome, start, before, k) && k < |ids| && Visited(ids, outcome, k) && IsFinal(outcome, ids[k])
    requires after == Marked(before.status[k := outcome(ids[k])], before.signalled[k := true])
    ensures var n := if k + 1 < |ids| then k + 2 else k + 1;
            && Handled(ids, outcome, start, after, n)
            && (SawIncomplete(ids, outcome, n) <==> SawIncomplete(ids, outcome, k))
  {
    PopMarks(ids, outcome, start, before, after, k);
    PopStep(ids, outcome, k);
    if k + 1 < |ids| {
      PassMarks(ids, outcome, start, after, k + 1);
    }
  }

  lemma OneMark<T>(start: seq<T>, before: seq<T>, after: seq<T>, k: nat)
    requires |start| == |before| == |after| && k < |start| && before[k..] == start[k..]
    requires forall i :: k < i < |start| ==> after[i] == before[i]
    ensures after[k + 1..] == start[k + 1..] && before[k] == start[k]
  {
    assert before[k..][0] == before[k] && start[k..][0] == start[k];
    forall i | k < i < |start|
      ensures after[i] == start[i]
    {
      assert before[k..][i - k] == before[i] && start[k..][i - k] == start[i];
    }
  }

  lemma StayElement(all: seq<Transaction>, outcome: Outcome, k: nat, list: seq<Transaction>, index: nat)
    requires StandsAt(all, outcome, list, index, k) && k < |all| && !IsFinal(outcome, all[k].id)
    ensures StandsAt(all, outcome, list, index + 1, k + 1)
  {
    StayStep(Ids(all), outcome, k);
    assert KeptOf(all, outcome, k + 1) == KeptOf(all, outcome, k) + [all[k]];
    assert all[k..] == [all[k]] + all[k + 1..];
  }

  lemma SkipElement(all: seq<Transaction>, outcome: Outcome, k: nat, list: seq<Transaction>, index: nat)
    requires StandsAt(all, outcome, list, index, k) && k < |all| && index < |list| && IsFinal(outcome, all[k].id)
    ensures StandsAt(all, outcome, list[..index] + list[index + 1..], index + 1, if k + 1 < |all| then k + 2 else k + 1)
  {
    var kept := KeptOf(all, outcome, k);
    PopStep(Ids(all), outcome, k);
    PopSplit(kept, all, k);
    assert KeptOf(all, outcome, k + 1) == kept;
    if k + 1 < |all| {
      assert KeptOf(all, outcome, k + 2) == kept + [all[k + 1]];
    }
  }

  lemma PopSplit(kept: seq<Transaction>, all: seq<Transaction>, k: nat)
    requires k < |all|
    ensures var list := kept + all[k..];
            list[..|kept|] + list[|kept| + 1..] == kept + all[k + 1..]
    ensures k + 1 < |all| ==> kept + all[k + 1..] == (kept + [all[k + 1]]) + all[k + 2..]
  {
  }

  /** The transactions among the first n that are not taken off. */
  function KeptOf(all: seq<Transaction>, outcome: Outcome, n: nat): (kept: seq<Transaction>)
    requires n <= |all|
    ensures Ids(kept) == Kept(Ids(all), outcome, n)
  {
    if n == 0 then []
    else KeptOf(all, outcome, n - 1) + if Removed(Ids(all), outcome, n - 1) then [] else [all[n - 1]]
  }
}
