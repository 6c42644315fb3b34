/** Notification subscriptions: the registry of them (opsrest/notifications/handler.py) and the rows
    that a collection subscription follows (opsrest/notifications/subscription.py). */
module Subscriptions {
  import opened Options
  import Escape

  type Uuid = nat
  type Name = string

  const SUBSCRIPTION_TABLE: Name := "Notification_Subscription"

  // ---------- the registry ----------

  /** A subscription object, told apart by `id`. */
  datatype Subscription = Subscription(id: nat, table: Name)

  datatype Registry = Registry(byUuid: map<Uuid, Subscription>, byTable: map<Name, set<Subscription>>, tracked: set<Name>)

  datatype Event = Add(uuid: Uuid, subscription: Subscription) | Remove(uuid: Uuid)

  const START: Registry := Registry(map[], map[], {SUBSCRIPTION_TABLE})

  function Bucket(r: Registry, t: Name): set<Subscription> {
    if t in r.byTable then r.byTable[t] else {}
  }

  function Next(r: Registry, e: Event): Registry {
    match e
    case Add(u, s) =>
      Registry(r.byUuid[u := s], r.byTable[s.table := Bucket(r, s.table) + {s}], r.tracked + {s.table})
    case Remove(u) =>
      if u !in r.byUuid then r
      else
        var s := r.byUuid[u];
        var rest := Bucket(r, s.table) - {s};
        if s.table !in r.byTable then r.(byUuid := r.byUuid - {u})
        else if rest == {} then Registry(r.byUuid - {u}, r.byTable - {s.table}, r.tracked - {s.table})
        else Registry(r.byUuid - {u}, r.byTable[s.table := rest], r.tracked)
  }

  ghost predicate Registered(r: Registry, s: Subscription) {
    exists u :: u in r.byUuid && r.byUuid[u] == s
  }

  ghost predicate OneUuidEach(r: Registry) {
    forall u, v :: u in r.byUuid && v in r.byUuid && r.byUuid[u] == r.byUuid[v] ==> u == v
  }

  ghost predicate BucketIs(r: Registry, t: Name) {
    && (forall s :: s in Bucket(r, t) <==> Registered(r, s) && s.table == t)
    && (t in r.byTable ==> r.byTable[t] != {})
  }

  /** Every table's bucket holds exactly the subscriptions on the table, no bucket is empty, and the
      IDL tracks exactly the tables with a bucket and the subscription table. */
  ghost predicate Exact(r: Registry) {
    && OneUuidEach(r)
    && (forall t {:trigger BucketIs(r, t)} :: BucketIs(r, t))
    && r.tracked == r.byTable.Keys + {SUBSCRIPTION_TABLE}
  }

  /** Subscription objects are new when they are added. */
  ghost predicate Possible(r: Registry, e: Event) {
    e.Add? ==> !Registered(r, e.subscription)
  }

  /** Events that keep the registry exact: new subscriptions come with a new UUID, and the last
      subscription on the subscription table itself is not removed. */
  ghost predicate Harmless(r: Registry, e: Event) {
    match e
    case Add(u, _) => u !in r.byUuid
    case Remove(u) => u in r.byUuid && r.byUuid[u].table == SUBSCRIPTION_TABLE ==> Bucket(r, SUBSCRIPTION_TABLE) != {r.byUuid[u]}
  }

  lemma AddBuckets(r: Registry, u: Uuid, s: Subscription, t: Name)
    requires Exact(r) && !Registered(r, s) && u !in r.byUuid
    ensures BucketIs(Next(r, Add(u, s)), t)
  {
    var after := Next(r, Add(u, s));
    assert BucketIs(r, t);
    forall x
      ensures Registered(after, x) <==> Registered(r, x) || x == s
    {
      if Registered(r, x) {
        var v :| v in r.byUuid && r.byUuid[v] == x;
        assert after.byUuid[v] == x;
      }
      if x == s {
        assert after.byUuid[u] == s;
      }
    }
  }

  lemma RemoveBuckets(r: Registry, u: Uuid, t: Name)
    requires Exact(r) && u in r.byUuid
    ensures BucketIs(Next(r, Remove(u)), t)
    ensures r.byUuid[u].table in r.byTable
  {
    var s := r.byUuid[u];
    var after := Next(r, Remove(u));
    assert BucketIs(r, t) && BucketIs(r, s.table);
    assert s in Bucket(r, s.table);
    forall x
      ensures Registered(after, x) <==> Registered(r, x) && x != s
    {
      if Registered(r, x) && x != s {
        var v :| v in r.byUuid && r.byUuid[v] == x;
        assert after.byUuid[v] == x;
      }
    }
  }

  /** An event keeps the registry exact if and only if it is harmless. */
  lemma EventKeepsExact(r: Registry, e: Event)
    requires Exact(r) && Possible(r, e)
    ensures Exact(Next(r, e)) <==> Harmless(r, e)
  {
    var after := Next(r, e);
    match e
    case Add(u, s) =>
      if u in r.byUuid {
        LostSubscription(r, u, s);
      } else {
        forall t
          ensures BucketIs(after, t)
        {
          AddBuckets(r, u, s, t);
        }
        forall v | v in r.byUuid
          ensures r.byUuid[v] != s
        {
        }
      }
    case Remove(u) =>
      if u in r.byUuid {
        forall t
          ensures BucketIs(after, t)
        {
          RemoveBuckets(r, u, t);
        }
        RemoveBuckets(r, u, SUBSCRIPTION_TABLE);
        var s := r.byUuid[u];
        assert BucketIs(r, s.table);
        assert s in Bucket(r, s.table);
      }
  }

  /** Adding under a UUID that is taken leaves the earlier subscription in its bucket for good. */
  lemma LostSubscription(r: Registry, u: Uuid, s: Subscription)
    requires Exact(r) && u in r.byUuid && !Registered(r, s)
    ensures !Exact(Next(r, Add(u, s)))
  {
    var lost, after := r.byUuid[u], Next(r, Add(u, s));
    assert Registered(r, lost);
    assert BucketIs(r, lost.table);
    assert lost in Bucket(after, lost.table);
    forall v | v in after.byUuid
      ensures after.byUuid[v] != lost
    {
      assert v != u ==> after.byUuid[v] == r.byUuid[v];
    }
    assert !BucketIs(after, lost.table);
  }

  function Run(events: seq<Event>): Registry {
    if events == [] then START else Next(Run(events[..|events| - 1]), events[|events| - 1])
  }

  ghost predicate AllPossible(events: seq<Event>, n: nat)
    requires n <= |events|
  {
    forall i {:trigger events[i]} :: 0 <= i < n ==> Possible(Run(events[..i]), events[i])
  }

  ghost predicate ExactAt(events: seq<Event>, i: nat)
    requires i <= |events|
  {
    Exact(Run(events[..i]))
  }

  ghost predicate HarmlessAt(events: seq<Event>, i: nat)
    requires i < |events|
  {
    Harmless(Run(events[..i]), events[i])
  }

  /** Over all runs: the registry is exact after each of the first n events exactly when they are harmless. */
  lemma {:induction false} RunStaysExact(events: seq<Event>, n: nat)
    requires n <= |events| && AllPossible(events, n)
    ensures (forall i {:trigger ExactAt(events, i)} :: 0 <= i <= n ==> ExactAt(events, i))
       <==> (forall i {:trigger HarmlessAt(events, i)} :: 0 <= i < n ==> HarmlessAt(events, i))
  {
    if n == 0 {
      assert events[..0] == [];
      StartIsExact();
      assert ExactAt(events, 0);
    } else {
      RunStaysExact(events, n - 1);
      assert events[..n][..n - 1] == events[..n - 1];
      if forall i {:trigger HarmlessAt(events, i)} :: 0 <= i < n - 1 ==> HarmlessAt(events, i) {
        assert ExactAt(events, n - 1);
        assert Possible(Run(events[..n - 1]), events[n - 1]);
        EventKeepsExact(Run(events[..n - 1]), events[n - 1]);
        assert HarmlessAt(events, n - 1) <==> ExactAt(events, n);
      }
    }
  }

  lemma StartIsExact()
    ensures Exact(START)
  {
    forall t
      ensures BucketIs(START, t)
    {
    }
  }

  class NotificationHandler {
    var byUuid: map<Uuid, Subscription>
    var byTable: map<Name, set<Subscription>>
    var tracked: set<Name>

    constructor ()
      ensures View() == START
    {
      byUuid, byTable, tracked := map[], map[], {SUBSCRIPTION_TABLE};
    }

    function View(): Registry
      reads this
    {
      Registry(byUuid, byTable, tracked)
    }

    method AddSubscription(u: Uuid, s: Subscription)
      modifies this
      ensures View() == Next(old(View()), Add(u, s))
    {
      if s.table !in byTable {
        byTable := byTable[s.table := {}];
      }
      tracked := tracked + {s.table};
      byTable := byTable[s.table := byTable[s.table] + {s}];
      byUuid := byUuid[u := s];
    }

    method RemoveSubscription(u: Uuid)
      modifies this
      ensures View() == Next(old(View()), Remove(u))
    {
      if u in byUuid {
        var s := byUuid[u];
        byUuid := byUuid - {u};
        if s.table in byTable {
          byTable := byTable[s.table := byTable[s.table] - {s}];
          if byTable[s.table] == {} {
            byTable := byTable - {s.table};
            tracked := tracked - {s.table};
            assert byTable == old(byTable) - {s.table};
          }
        }
      }
    }
  }

  // ---------- collections ----------

  /** What the IDL tracked for a row, and the URI of the row while it is there. */
  datatype RowChange = RowChange(row: Uuid, created: nat, deleted: nat, uri: string)

  predicate IsAdded(c: RowChange, seqno: nat) {
    c.created > seqno
  }

  predicate IsDeleted(c: RowChange, seqno: nat) {
    !IsAdded(c, seqno) && c.deleted > seqno
  }

  predicate InCollection(collection: seq<string>, uri: string) {
    |Escape.Split(uri)| >= |collection| && Escape.Split(uri)[..|collection|] == collection
  }

  /** Changes that the collection can make sense of. */
  predicate Fits(collection: seq<string>, seqno: nat, c: RowChange) {
    if IsAdded(c, seqno) then InCollection(collection, c.uri) else IsDeleted(c, seqno)
  }

  datatype Message = AddedRow(row: Uuid, uri: string) | DeletedRow(uri: string)

  datatype Tracking = Tracking(rows: map<Uuid, string>, added: seq<Message>, deleted: seq<Message>)

  /** One change after the other. */
  function Followed(rows: map<Uuid, string>, seqno: nat, changes: seq<RowChange>): Tracking {
    if changes == [] then Tracking(rows, [], [])
    else
      var before := Followed(rows, seqno, changes[..|changes| - 1]);
      var c := changes[|changes| - 1];
      if IsAdded(c, seqno) then before.(rows := before.rows[c.row := c.uri], added := before.added + [AddedRow(c.row, c.uri)])
      else if IsDeleted(c, seqno) && c.row in before.rows then
        before.(rows := before.rows - {c.row}, deleted := before.deleted + [DeletedRow(before.rows[c.row])])
      else before
  }

  /** How many changes are gone through before one does not fit. */
  function Good(collection: seq<string>, seqno: nat, changes: seq<RowChange>): (n: nat)
    ensures n <= |changes|
    ensures forall i :: 0 <= i < n ==> Fits(collection, seqno, changes[i])
    ensures n < |changes| ==> !Fits(collection, seqno, changes[n])
  {
    if changes == [] then 0
    else
      var n := Good(collection, seqno, changes[..|changes| - 1]);
      if n == |changes| - 1 && Fits(collection, seqno, changes[n]) then n + 1 else n
  }

  ghost predicate OneChangeEach(changes: seq<RowChange>) {
    forall i, k :: 0 <= i < k < |changes| ==> changes[i].row != changes[k].row
  }

  ghost predicate AddedIn(changes: seq<RowChange>, seqno: nat, u: Uuid, uri: string) {
    exists i :: 0 <= i < |changes| && changes[i].row == u && changes[i].uri == uri && changes[i].created > seqno
  }

  ghost predicate DeletedIn(changes: seq<RowChange>, seqno: nat, u: Uuid) {
    exists i :: 0 <= i < |changes| && changes[i].row == u && changes[i].created <= seqno && changes[i].deleted > seqno
  }

  /** The rows followed afterwards are the ones before, without the deleted and with the added ones;
      in whatever order the changes come. */
  lemma {:induction false} FollowedRows(rows: map<Uuid, string>, seqno: nat, changes: seq<RowChange>, u: Uuid, uri: string)
    requires OneChangeEach(changes)
    ensures u in Followed(rows, seqno, changes).rows && Followed(rows, seqno, changes).rows[u] == uri <==>
              || AddedIn(changes, seqno, u, uri)
              || (u in rows && rows[u] == uri && !DeletedIn(changes, seqno, u) && forall other :: !AddedIn(changes, seqno, u, other))
  {
    if changes != [] {
      var n := |changes| - 1;
      var init, c := changes[..n], changes[n];
      FollowedRows(rows, seqno, init, u, uri);
      LastChange(changes, seqno, u);
      if c.row == u {
        StillFollowed(rows, seqno, init, u);
        assert !DeletedIn(init, seqno, u);
        assert forall other :: !AddedIn(init, seqno, u, other);
        if IsAdded(c, seqno) {
          assert AddedIn(changes, seqno, u, c.uri);
        }
      } else {
        assert forall other :: AddedIn(changes, seqno, u, other) <==> AddedIn(init, seqno, u, other);
      }
    }
  }

  lemma LastChange(changes: seq<RowChange>, seqno: nat, u: Uuid)
    requires changes != []
    ensures var n := |changes| - 1; var c := changes[n];
            && (DeletedIn(changes, seqno, u) <==> DeletedIn(changes[..n], seqno, u) || (c.row == u && IsDeleted(c, seqno)))
            && (forall uri :: AddedIn(changes, seqno, u, uri) <==>
                  AddedIn(changes[..n], seqno, u, uri) || (c.row == u && c.uri == uri && IsAdded(c, seqno)))
  {
    var n := |changes| - 1;
    var init, c := changes[..n], changes[n];
    if DeletedIn(init, seqno, u) {
      var i :| 0 <= i < n && init[i].row == u && IsDeleted(init[i], seqno);
      assert changes[i] == init[i];
    }
    forall uri | AddedIn(init, seqno, u, uri)
      ensures AddedIn(changes, seqno, u, uri)
    {
      var i :| 0 <= i < n && init[i].row == u && init[i].uri == uri && IsAdded(init[i], seqno);
      assert changes[i] == init[i];
    }
    forall uri | AddedIn(changes, seqno, u, uri)
      ensures AddedIn(init, seqno, u, uri) || (c.row == u && c.uri == uri && IsAdded(c, seqno))
    {
      var i :| 0 <= i < |changes| && changes[i].row == u && changes[i].uri == uri && IsAdded(changes[i], seqno);
      assert i < n ==> init[i] == changes[i];
    }
    if DeletedIn(changes, seqno, u) {
      var i :| 0 <= i < |changes| && changes[i].row == u && IsDeleted(changes[i], seqno);
      assert i < n ==> init[i] == changes[i];
    }
  }

  /** A message for every added row, with its URI, in the order of the changes. */
  function Additions(seqno: nat, changes: seq<RowChange>): seq<Message> {
    if changes == [] then []
    else
      var c, init := changes[|changes| - 1], Additions(seqno, changes[..|changes| - 1]);
      if IsAdded(c, seqno) then init + [AddedRow(c.row, c.uri)] else init
  }

  /** A message for every deleted row that was followed before the changes, with the URI it was followed
      under. */
  function Deletions(rows: map<Uuid, string>, seqno: nat, changes: seq<RowChange>): seq<Message> {
    if changes == [] then []
    else
      var c, init := changes[|changes| - 1], Deletions(rows, seqno, changes[..|changes| - 1]);
      if IsDeleted(c, seqno) && c.row in rows then init + [DeletedRow(rows[c.row])] else init
  }

  /** The messages speak of the rows as they were before the changes. */
  lemma {:induction false} FollowedMessages(rows: map<Uuid, string>, seqno: nat, changes: seq<RowChange>)
    requires OneChangeEach(changes)
    ensures Followed(rows, seqno, changes).added == Additions(seqno, changes)
    ensures Followed(rows, seqno, changes).deleted == Deletions(rows, seqno, changes)
  {
    if changes != [] {
      var n := |changes| - 1;
      FollowedMessages(rows, seqno, changes[..n]);
      StillFollowed(rows, seqno, changes[..n], changes[n].row);
    }
  }

  /** A change that deletes a row followed under this URI. */
  ghost predicate Unfollows(rows: map<Uuid, string>, seqno: nat, c: RowChange, uri: string) {
    c.created <= seqno && c.deleted > seqno && c.row in rows && rows[c.row] == uri
  }

  /** Which URIs the messages carry. */
  lemma {:induction false} MessagesExactly(rows: map<Uuid, string>, seqno: nat, changes: seq<RowChange>, u: Uuid, uri: string)
    ensures AddedRow(u, uri) in Additions(seqno, changes) <==> AddedIn(changes, seqno, u, uri)
    ensures DeletedRow(uri) in Deletions(rows, seqno, changes) <==> exists c :: c in changes && Unfollows(rows, seqno, c, uri)
  {
    if changes != [] {
      var n := |changes| - 1;
      MessagesExactly(rows, seqno, changes[..n], u, uri);
      LastChange(changes, seqno, u);
      assert changes == changes[..n] + [changes[n]];
      assert forall c :: c in changes <==> c in changes[..n] || c == changes[n];
      if Unfollows(rows, seqno, changes[n], uri) {
        assert DeletedRow(uri) in Deletions(rows, seqno, changes);
      }
    }
  }

  lemma {:induction false} StillFollowed(rows: map<Uuid, string>, seqno: nat, changes: seq<RowChange>, u: Uuid)
    requires forall i :: 0 <= i < |changes| ==> changes[i].row != u
    ensures u in Followed(rows, seqno, changes).rows <==> u in rows
    ensures u in rows ==> Followed(rows, seqno, changes).rows[u] == rows[u]
  {
    if changes != [] {
      StillFollowed(rows, seqno, changes[..|changes| - 1], u);
    }
  }

  class CollectionSubscription {
    const collection: seq<string>
    var rowsToUri: map<Uuid, string>

    constructor (uri: string, rows: map<Uuid, string>)
      ensures collection == Escape.Split(uri) && rowsToUri == rows
    {
      collection, rowsToUri := Escape.Split(uri), rows;
    }

    /** Whether a URI has the collection's segments in front. */
    method Matches(uri: string) returns (ok: bool)
      ensures ok <==> InCollection(collection, uri)
    {
      var trace := Escape.Split(uri);
      if |trace| < |collection| {
        return false;
      }
      for i := 0 to |collection|
        invariant trace[..i] == collection[..i]
      {
        if collection[i] != trace[i] {
          return false;
        }
      }
      ok := true;
    }

    lemma FitsExactly(c: RowChange, seqno: nat)
      ensures Fits(collection, seqno, c) <==>
              if c.created > seqno then
                && |Escape.Split(c.uri)| >= |collection|
                && forall i :: 0 <= i < |collection| ==> Escape.Split(c.uri)[i] == collection[i]
              else c.deleted > seqno
    {
      var trace := Escape.Split(c.uri);
      if |trace| >= |collection| && forall i :: 0 <= i < |collection| ==> trace[i] == collection[i] {
        assert trace[..|collection|] == collection;
      }
      if |trace| >= |collection| && trace[..|collection|] == collection {
        assert forall i :: 0 <= i < |collection| ==> trace[..|collection|][i] == trace[i];
      }
    }

    /** Follows the changes of a table.  A change that does not fit ends it: what came before stays
        done, and nothing is reported. */
    method GetChanges(changes: seq<RowChange>, seqno: nat) returns (messages: Option<(seq<Message>, seq<Message>)>)
      modifies this
      ensures rowsToUri == Followed(old(rowsToUri), seqno, changes[..Good(collection, seqno, changes)]).rows
      ensures messages.Some? <==> Good(collection, seqno, changes) == |changes|
      ensures messages.Some? <==> forall c :: c in changes ==>
                if c.created > seqno then
                  && |Escape.Split(c.uri)| >= |collection|
                  && forall i :: 0 <= i < |collection| ==> Escape.Split(c.uri)[i] == collection[i]
                else c.deleted > seqno
      ensures messages.Some? ==> var all := Followed(old(rowsToUri), seqno, changes); messages.value == (all.added, all.deleted)
    {
      var added, deleted: seq<Message> := [], [];
      forall c | c in changes
        ensures Fits(collection, seqno, c) <==>
                if c.created > seqno then
                  && |Escape.Split(c.uri)| >= |collection|
                  && forall i :: 0 <= i < |collection| ==> Escape.Split(c.uri)[i] == collection[i]
                else c.deleted > seqno
      {
        FitsExactly(c, seqno);
      }
      ghost var start := rowsToUri;
      var i := 0;
      while i < |changes|
        invariant 0 <= i <= |changes|
        invariant Followed(start, seqno, changes[..i]) == Tracking(rowsToUri, added, deleted)
        invariant forall k :: 0 <= k < i ==> Fits(collection, seqno, changes[k])
      {
        var c := changes[i];
        assert changes[..i + 1][..i] == changes[..i];
        if IsAdded(c, seqno) {
          var matches := Matches(c.uri);
          if !matches {
            return None;
          }
          rowsToUri := rowsToUri[c.row := c.uri];
          added := added + [AddedRow(c.row, c.uri)];
        } else if IsDeleted(c, seqno) {
          if c.row in rowsToUri {
            deleted := deleted + [DeletedRow(rowsToUri[c.row])];
            rowsToUri := rowsToUri - {c.row};
          }
        } else {
          return None;
        }
        i := i + 1;
      }
      assert changes[..|changes|] == changes;
      messages := Some((added, deleted));
    }
  }
}
