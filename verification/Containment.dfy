/** Containment between rows, seen as a graph: what lies below a row, and which of it the deletion
    planner schedules. */
module Containment {
  import opened Database
  import opened Validation

  /** `kids` are the direct children of every row, `rank` falls from a row to its children, and
      `deletable` are the rows that pass the deletion check. */
  datatype Graph = Graph(kids: map<Uuid, set<Uuid>>, rank: map<Uuid, nat>, deletable: set<Uuid>)

  ghost predicate ValidGraph(g: Graph) {
    && g.rank.Keys == g.kids.Keys
    && (forall u, w :: u in g.kids && w in g.kids[u] ==> w in g.kids && g.rank[w] < g.rank[u])
  }

  /** Each row is contained in at most one. */
  ghost predicate OneOwner(g: Graph) {
    forall u1, u2, w :: u1 in g.kids && u2 in g.kids && w in g.kids[u1] && w in g.kids[u2] ==> u1 == u2
  }

  /** Every direct child passes the deletion check. */
  ghost predicate Removable(g: Graph, v: Uuid) {
    v in g.kids && g.kids[v] <= g.deletable
  }

  /** The row itself and everything it contains. */
  ghost function Below(g: Graph, v: Uuid): (below: set<Uuid>)
    requires ValidGraph(g)
    decreases if v in g.rank then g.rank[v] else 0
  {
    if v !in g.kids then {} else {v} + set w, x | w in g.kids[v] && x in Below(g, w) :: x
  }

  /** The rows that planning the deletion of `v` schedules. */
  ghost function PlanSet(g: Graph, v: Uuid): (plan: set<Uuid>)
    requires ValidGraph(g)
    decreases if v in g.rank then g.rank[v] else 0
  {
    if v !in g.kids then {}
    else
      (if Removable(g, v) then {v} else {})
      + set w, x | w in g.kids[v] && w in g.deletable && x in PlanSet(g, w) :: x
  }

  lemma {:induction false} BelowRank(g: Graph, v: Uuid, x: Uuid)
    requires ValidGraph(g) && x in Below(g, v)
    ensures v in g.kids && x in g.kids && (x == v || g.rank[x] < g.rank[v])
    decreases if v in g.rank then g.rank[v] else 0
  {
    if x != v {
      var w :| w in g.kids[v] && x in Below(g, w);
      BelowRank(g, w, x);
    }
  }

  lemma {:induction false} PlanIsBelow(g: Graph, v: Uuid, x: Uuid)
    requires ValidGraph(g) && x in PlanSet(g, v)
    ensures x in Below(g, v)
    decreases if v in g.rank then g.rank[v] else 0
  {
    if !(x == v && Removable(g, v)) {
      var w :| w in g.kids[v] && w in g.deletable && x in PlanSet(g, w);
      PlanIsBelow(g, w, x);
    }
  }

  lemma {:induction false} BelowOwner(g: Graph, v: Uuid, x: Uuid) returns (y: Uuid)
    requires ValidGraph(g) && x in Below(g, v) && x != v
    ensures y in Below(g, v) && y in g.kids && x in g.kids[y]
    decreases if v in g.rank then g.rank[v] else 0
  {
    var w :| w in g.kids[v] && x in Below(g, w);
    if x == w {
      y := v;
    } else {
      y := BelowOwner(g, w, x);
    }
  }

  ghost predicate Owns(g: Graph, u: Uuid, w: Uuid) {
    u in g.kids && w in g.kids[u]
  }

  /** Nothing below `v` is contained in two rows below `v`. */
  ghost predicate OneOwnerBelow(g: Graph, v: Uuid)
    requires ValidGraph(g)
  {
    forall u1, u2, w :: u1 in Below(g, v) && u2 in Below(g, v) && Owns(g, u1, w) && Owns(g, u2, w) ==> u1 == u2
  }

  lemma BelowChild(g: Graph, p: Uuid, w: Uuid)
    requires ValidGraph(g) && Owns(g, p, w)
    ensures Below(g, w) <= Below(g, p) && p in Below(g, p)
    ensures OneOwnerBelow(g, p) ==> OneOwnerBelow(g, w)
  {
  }

  lemma {:induction false} BelowGoesOn(g: Graph, v: Uuid, u: Uuid, w: Uuid)
    requires ValidGraph(g) && u in Below(g, v) && Owns(g, u, w)
    ensures w in Below(g, v)
    decreases if v in g.rank then g.rank[v] else 0
  {
    if u == v {
      BelowChild(g, v, w);
      assert w in Below(g, w);
    } else {
      var x :| x in g.kids[v] && u in Below(g, x);
      BelowGoesOn(g, x, u, w);
    }
  }

  /** Two different children of one row have nothing below them in common. */
  lemma {:induction false} SiblingsDisjoint(g: Graph, p: Uuid, w1: Uuid, w2: Uuid, x: Uuid)
    requires ValidGraph(g) && OneOwnerBelow(g, p)
    requires p in g.kids && w1 in g.kids[p] && w2 in g.kids[p] && w1 != w2
    requires x in Below(g, w1)
    ensures x !in Below(g, w2)
    decreases if x in g.rank && g.rank[p] > g.rank[x] then g.rank[p] - g.rank[x] else 0
  {
    BelowRank(g, w1, x);
    BelowChild(g, p, w1);
    BelowChild(g, p, w2);
    if x in Below(g, w2) {
      BelowRank(g, w2, x);
      if x == w1 {
        var y := BelowOwner(g, w2, x);
        assert Owns(g, y, x) && Owns(g, p, x);
        BelowRank(g, w2, p);
      } else if x == w2 {
        var y := BelowOwner(g, w1, x);
        assert Owns(g, y, x) && Owns(g, p, x);
        BelowRank(g, w1, p);
      } else {
        var y1 := BelowOwner(g, w1, x);
        var y2 := BelowOwner(g, w2, x);
        assert Owns(g, y1, x) && Owns(g, y2, x);
        BelowRank(g, w1, y1);
        SiblingsDisjoint(g, p, w1, w2, y1);
      }
    }
  }

  // ---------- what a plan holds ----------

  lemma {:induction false} PlannedIsRemovable(g: Graph, v: Uuid, x: Uuid)
    requires ValidGraph(g) && x in PlanSet(g, v)
    ensures Removable(g, x)
    decreases if v in g.rank then g.rank[v] else 0
  {
    if !(x == v && Removable(g, v)) {
      var w :| w in g.kids[v] && w in g.deletable && x in PlanSet(g, w);
      PlannedIsRemovable(g, w, x);
    }
  }

  lemma {:induction false} HereditaryPlan(g: Graph, v: Uuid)
    requires ValidGraph(g)
    requires forall x :: x in Below(g, v) ==> Removable(g, x)
    ensures PlanSet(g, v) == Below(g, v)
    decreases if v in g.rank then g.rank[v] else 0
  {
    if v in g.kids {
      assert Removable(g, v);
      forall w | w in g.kids[v]
        ensures PlanSet(g, w) == Below(g, w)
      {
        HereditaryPlan(g, w);
      }
    }
  }

  /** A row is scheduled exactly when all its direct children pass the check. */
  lemma RootIsPlanned(g: Graph, v: Uuid)
    requires ValidGraph(g)
    ensures v in PlanSet(g, v) <==> Removable(g, v)
  {
    if v in PlanSet(g, v) {
      PlannedIsRemovable(g, v, v);
    }
  }

  /** The planner looks one level down and ignores what the recursive deletion reports, so a plan is
      the whole subtree exactly when every row of it is removable by itself. */
  lemma PlanIsWholeSubtree(g: Graph, v: Uuid)
    requires ValidGraph(g)
    ensures PlanSet(g, v) == Below(g, v) <==> forall x :: x in Below(g, v) ==> Removable(g, x)
  {
    if forall x :: x in Below(g, v) ==> Removable(g, x) {
      HereditaryPlan(g, v);
    } else if PlanSet(g, v) == Below(g, v) {
      var x :| x in Below(g, v) && !Removable(g, x);
      PlannedIsRemovable(g, v, x);
    }
  }

  // ---------- orphans ----------

  /** The rows that planning the deletion of `v` looks at: `v` and what it reaches through deletable children. */
  ghost function Reached(g: Graph, v: Uuid): (reached: set<Uuid>)
    requires ValidGraph(g)
    decreases if v in g.rank then g.rank[v] else 0
  {
    if v !in g.kids then {} else {v} + set w, x | w in g.kids[v] && w in g.deletable && x in Reached(g, w) :: x
  }

  /** Of the rows that are looked at, those are scheduled that pass the check. */
  lemma {:induction false} PlanIsReached(g: Graph, v: Uuid, x: Uuid)
    requires ValidGraph(g)
    ensures x in PlanSet(g, v) <==> x in Reached(g, v) && Removable(g, x)
    decreases if v in g.rank then g.rank[v] else 0
  {
    if v in g.kids {
      forall w | w in g.kids[v]
        ensures x in PlanSet(g, w) <==> x in Reached(g, w) && Removable(g, x)
      {
        PlanIsReached(g, w, x);
      }
    }
  }

  lemma {:induction false} ReachedIsBelow(g: Graph, v: Uuid, x: Uuid)
    requires ValidGraph(g) && x in Reached(g, v)
    ensures x in Below(g, v) && x in g.kids
    decreases if v in g.rank then g.rank[v] else 0
  {
    if x != v {
      var w :| w in g.kids[v] && w in g.deletable && x in Reached(g, w);
      ReachedIsBelow(g, w, x);
    }
  }

  lemma {:induction false} ReachedGoesOn(g: Graph, v: Uuid, x: Uuid, w: Uuid)
    requires ValidGraph(g) && x in Reached(g, v) && Owns(g, x, w) && w in g.deletable
    ensures w in Reached(g, v)
    decreases if v in g.rank then g.rank[v] else 0
  {
    if x == v {
      assert w in Reached(g, w);
    } else {
      var u :| u in g.kids[v] && u in g.deletable && x in Reached(g, u);
      ReachedGoesOn(g, u, x, w);
    }
  }

  /** No scheduled row keeps an unscheduled descendant. */
  ghost predicate NoOrphans(g: Graph, v: Uuid)
    requires ValidGraph(g)
  {
    forall x, y :: x in PlanSet(g, v) && y in Below(g, x) ==> y in PlanSet(g, v)
  }

  /** A deletable row reached that passes the check has only children that pass it as well. */
  ghost predicate ChecksGoOn(g: Graph, v: Uuid)
    requires ValidGraph(g)
  {
    forall x, w :: x in Reached(g, v) && Removable(g, x) && Owns(g, x, w) ==> Removable(g, w)
  }

  /** Deleting leaves no row without its owner exactly when the check, once passed, goes on to be passed. */
  lemma NoOrphansExactly(g: Graph, v: Uuid)
    requires ValidGraph(g)
    ensures NoOrphans(g, v) <==> ChecksGoOn(g, v)
  {
    if NoOrphans(g, v) {
      forall x, w | x in Reached(g, v) && Removable(g, x) && Owns(g, x, w)
        ensures Removable(g, w)
      {
        PlanIsReached(g, v, x);
        assert w in Below(g, w) && w in Below(g, x);
        PlannedIsRemovable(g, v, w);
      }
    }
    if ChecksGoOn(g, v) {
      forall x, y | x in PlanSet(g, v) && y in Below(g, x)
        ensures y in PlanSet(g, v)
      {
        PlannedBelow(g, v, x, y);
      }
    }
  }

  lemma {:induction false} PlannedBelow(g: Graph, v: Uuid, x: Uuid, y: Uuid)
    requires ValidGraph(g) && ChecksGoOn(g, v) && x in PlanSet(g, v) && y in Below(g, x)
    ensures y in PlanSet(g, v)
    decreases if x in g.rank then g.rank[x] else 0
  {
    if x != y {
      var w :| w in g.kids[x] && y in Below(g, w);
      PlanIsReached(g, v, x);
      assert Owns(g, x, w);
      ReachedGoesOn(g, v, x, w);
      PlanIsReached(g, v, w);
      PlannedBelow(g, v, w, y);
    }
  }

  /** Deletable rows contain deletable rows only. */
  ghost predicate Hereditary(g: Graph) {
    forall u, w :: Owns(g, u, w) && u in g.deletable ==> w in g.deletable
  }

  /** With a check that is passed on from rows to their children there are no orphans. */
  lemma HereditaryLeavesNoOrphans(g: Graph, v: Uuid)
    requires ValidGraph(g) && Hereditary(g)
    ensures NoOrphans(g, v)
  {
    forall x, w | x in Reached(g, v) && Removable(g, x) && Owns(g, x, w)
      ensures Removable(g, w)
    {
      assert w in g.deletable;
      forall y | y in g.kids[w]
        ensures y in g.deletable
      {
        assert Owns(g, w, y);
      }
    }
    NoOrphansExactly(g, v);
  }

  /** The case that is missed, for every chain of three rows of which only the lowest fails the check: the
      top row goes, the two rows below it stay without an owner. */
  lemma PlanCanOrphan(g: Graph, top: Uuid, middle: Uuid, low: Uuid)
    requires ValidGraph(g)
    requires top in g.kids && g.kids[top] == {middle} && middle in g.deletable
    requires g.kids[middle] == {low} && low !in g.deletable
    ensures PlanSet(g, top) == {top} && {middle, low} <= Below(g, top) && !NoOrphans(g, top)
  {
    assert Below(g, low) >= {low};
    assert low in Below(g, middle);
    assert PlanSet(g, middle) == {};
  }

  // ---------- order of a plan ----------

  /** Children come before the row that contains them. */
  ghost predicate ChildrenFirst(g: Graph, plan: seq<ResourceOp>) {
    forall i, j :: 0 <= i < |plan| && 0 <= j < |plan| && Owns(g, plan[i].row, plan[j].row) ==> j < i
  }

  ghost predicate PostOrder(g: Graph, plan: seq<ResourceOp>) {
    Distinct(plan) && ChildrenFirst(g, plan)
  }

  ghost function BelowAll(g: Graph, roots: set<Uuid>): set<Uuid>
    requires ValidGraph(g)
  {
    set w, x | w in roots && x in Below(g, w) :: x
  }

  ghost function PlanAll(g: Graph, roots: set<Uuid>): set<Uuid>
    requires ValidGraph(g)
  {
    set w, x | w in roots && x in PlanSet(g, w) :: x
  }

  lemma PlanAllIsBelow(g: Graph, roots: set<Uuid>)
    requires ValidGraph(g)
    ensures PlanAll(g, roots) <= BelowAll(g, roots)
  {
    forall x | x in PlanAll(g, roots)
      ensures x in BelowAll(g, roots)
    {
      var w :| w in roots && x in PlanSet(g, w);
      PlanIsBelow(g, w, x);
    }
  }

  /** No row of one set is in the other, or owns a row of it. */
  ghost predicate Unlinked(g: Graph, a: set<Uuid>, b: set<Uuid>) {
    forall x, y :: x in a && y in b ==> x != y && !Owns(g, x, y)
  }

  /** Sets of rows with nothing below them in common, and no row of one owning a row below the other. */
  ghost predicate Apart(g: Graph, a: set<Uuid>, b: set<Uuid>)
    requires ValidGraph(g)
  {
    Unlinked(g, BelowAll(g, a), BelowAll(g, b))
  }

  lemma SiblingsApart(g: Graph, p: Uuid, a: set<Uuid>, b: set<Uuid>)
    requires ValidGraph(g) && OneOwnerBelow(g, p) && p in g.kids
    requires a <= g.kids[p] && b <= g.kids[p] && a !! b
    ensures Apart(g, a, b)
  {
    forall x, y | x in BelowAll(g, a) && y in BelowAll(g, b)
      ensures x != y && !Owns(g, x, y)
    {
      var w1 :| w1 in a && x in Below(g, w1);
      var w2 :| w2 in b && y in Below(g, w2);
      BelowChild(g, p, w1);
      BelowChild(g, p, w2);
      SiblingsDisjoint(g, p, w1, w2, x);
      if Owns(g, x, y) {
        if y == w2 {
          assert Owns(g, p, y);
          BelowRank(g, w1, p);
        } else {
          var z := BelowOwner(g, w2, y);
          assert Owns(g, z, y);
        }
      }
    }
  }

  /** Of the rows no two have anything below them in common. */
  ghost predicate Scattered(g: Graph, rows: set<Uuid>)
    requires ValidGraph(g)
  {
    forall v, w {:trigger Apart(g, {v}, {w})} :: v in rows && w in rows && v != w ==> Apart(g, {v}, {w})
  }

  lemma ScatteredApart(g: Graph, rows: set<Uuid>, done: set<Uuid>, w: Uuid)
    requires ValidGraph(g) && Scattered(g, rows) && done <= rows && w in rows && w !in done
    ensures Apart(g, done, {w})
  {
    forall x, y | x in BelowAll(g, done) && y in BelowAll(g, {w})
      ensures x != y && !Owns(g, x, y)
    {
      var v :| v in done && x in Below(g, v);
      assert Apart(g, {v}, {w}) && x in BelowAll(g, {v});
    }
  }

  lemma SiblingsScattered(g: Graph, p: Uuid, rows: set<Uuid>)
    requires ValidGraph(g) && OneOwnerBelow(g, p) && p in g.kids && rows <= g.kids[p]
    ensures Scattered(g, rows) && forall w :: w in rows ==> OneOwnerBelow(g, w)
  {
    forall v, w | v in rows && w in rows && v != w
      ensures Apart(g, {v}, {w})
    {
      SiblingsApart(g, p, {v}, {w});
    }
    forall w | w in rows
      ensures OneOwnerBelow(g, w)
    {
      BelowChild(g, p, w);
    }
  }

  lemma ApartPlans(g: Graph, a: set<Uuid>, plan: seq<ResourceOp>, b: set<Uuid>, more: seq<ResourceOp>)
    requires ValidGraph(g) && Apart(g, a, b)
    requires PostOrder(g, plan) && RowsOf(plan) <= BelowAll(g, a)
    requires PostOrder(g, more) && RowsOf(more) <= BelowAll(g, b)
    ensures PostOrder(g, plan + more)
  {
    forall i, j | 0 <= i < |plan| && 0 <= j < |more|
      ensures plan[i].row != more[j].row && !Owns(g, plan[i].row, more[j].row)
    {
      assert plan[i].row in RowsOf(plan) && more[j].row in RowsOf(more);
    }
  }

  lemma PlanAllUnion(g: Graph, a: set<Uuid>, b: set<Uuid>)
    requires ValidGraph(g)
    ensures PlanAll(g, a + b) == PlanAll(g, a) + PlanAll(g, b)
  {
  }

  lemma EmptyPlan(g: Graph)
    requires ValidGraph(g)
    ensures RowsOf([]) == PlanAll(g, {}) == {} && PostOrder(g, [])
  {
  }

  /** The plan of row `w` follows that of the rows `done`. */
  lemma AddPlan(g: Graph, done: set<Uuid>, plan: seq<ResourceOp>, w: Uuid, more: seq<ResourceOp>)
    requires ValidGraph(g)
    requires RowsOf(plan) == PlanAll(g, done) && RowsOf(more) == PlanSet(g, w)
    ensures RowsOf(plan + more) == PlanAll(g, done + {w})
    ensures PostOrder(g, plan) && PostOrder(g, more) && Apart(g, done, {w}) ==> PostOrder(g, plan + more)
  {
    assert PlanAll(g, {w}) == PlanSet(g, w);
    AddPlans(g, done, plan, {w}, more);
  }

  lemma AddPlans(g: Graph, a: set<Uuid>, plan: seq<ResourceOp>, b: set<Uuid>, more: seq<ResourceOp>)
    requires ValidGraph(g)
    requires RowsOf(plan) == PlanAll(g, a) && RowsOf(more) == PlanAll(g, b)
    ensures RowsOf(plan + more) == PlanAll(g, a + b)
    ensures PostOrder(g, plan) && PostOrder(g, more) && Apart(g, a, b) ==> PostOrder(g, plan + more)
  {
    RowsOfAppend(plan, more);
    PlanAllUnion(g, a, b);
    if PostOrder(g, plan) && PostOrder(g, more) && Apart(g, a, b) {
      PlanAllIsBelow(g, a);
      PlanAllIsBelow(g, b);
      ApartPlans(g, a, plan, b, more);
    }
  }

  /** The plan of row `v` is that of its deletable children, followed by the row if it can go. */
  lemma ClosePlan(g: Graph, v: Uuid, plan: seq<ResourceOp>, op: ResourceOp)
    requires ValidGraph(g) && v in g.kids && op.row == v
    requires RowsOf(plan) == PlanAll(g, g.kids[v] * g.deletable)
    ensures Removable(g, v) ==> RowsOf(plan + [op]) == PlanSet(g, v)
    ensures !Removable(g, v) ==> RowsOf(plan) == PlanSet(g, v)
    ensures Removable(g, v) && PostOrder(g, plan) ==> PostOrder(g, plan + [op])
  {
    RowsOfAppend(plan, [op]);
    assert RowsOf([op]) == {v} by {
      assert [op][0].row == v;
    }
    if Removable(g, v) {
      assert g.kids[v] * g.deletable == g.kids[v];
      PlanAllIsBelow(g, g.kids[v]);
      if PostOrder(g, plan) {
        OwnerLast(g, v, plan, op);
      }
    }
  }

  /** A row can close the plan of its own children. */
  lemma OwnerLast(g: Graph, p: Uuid, plan: seq<ResourceOp>, op: ResourceOp)
    requires ValidGraph(g) && p in g.kids && op.row == p
    requires PostOrder(g, plan) && RowsOf(plan) <= BelowAll(g, g.kids[p])
    ensures PostOrder(g, plan + [op])
  {
    forall i | 0 <= i < |plan|
      ensures plan[i].row != p && !Owns(g, plan[i].row, p)
    {
      assert plan[i].row in RowsOf(plan);
      var w :| w in g.kids[p] && plan[i].row in Below(g, w);
      BelowRank(g, w, plan[i].row);
    }
  }
}
