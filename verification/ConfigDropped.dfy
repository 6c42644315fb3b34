/** What a write drops from child columns and tables, and the plans for it: nothing that is named, and no
    row twice. */
module ConfigDropped {
  import opened Database
  import opened Containment
  import opened Deletion
  import opened ConfigTree
  import opened ConfigTarget

  // ---------- children and the rows that contain them ----------

  /** A child of a named row that is itself named is an entry of that row's data. */
  lemma ClaimedChild(j: Job, p: Path, u: Uuid, c: Name, w: Uuid, q: Path)
    requires WellPosed(j) && IsOld(j, p, u) && IsOld(j, q, w) && IsChildOf(j.schema, j.base, u, c, w)
    ensures q != [] && q == p + [Step(c, Last(q).key)] && Last(q).key in KeysAt(j, p, c)
    ensures IsKeyed(j.schema, q) ==>
              && HasKey(j.schema, j.base, u, c, Last(q).key)
              && j.base[u].refs[c].entries[Last(q).key] == w
    ensures !IsKeyed(j.schema, q) ==> NamedIn(j.schema, j.base, w, KeysAt(j, p, c))
  {
    ChildIsBelow(j, u, c, w, q);
    ExistingChild(j, q);
    LiveParent(j, q);
    ExistInjective(j, Parent(q), p);
    assert q == Parent(q) + [Last(q)];
    StepBelow(j, p, q);
    KeyedTable(j, q);
    if !IsKeyed(j.schema, q) {
      LookedUpKey(j, q);
    }
  }

  lemma ChildIsBelow(j: Job, u: Uuid, c: Name, w: Uuid, q: Path)
    requires WellPosed(j) && IsOld(j, q, w) && IsChildOf(j.schema, j.base, u, c, w)
    ensures |q| > 1
  {
    assert Fits(j, q);
    ExistingRow(j, q);
    KidIsLower(j.schema, j.base, u, c, w);
    assert ValidColumn(j.schema, j.base[u].table, c);
  }

  lemma ColumnOf(j: Job, p: Path, c: Name, u: Uuid)
    requires WellPosed(j) && IsOld(j, p, u) && c in ChildColumns(j, p)
    ensures u in j.base && c in j.base[u].refs && OldColumn(j, p, c) == j.base[u].refs[c]
    ensures TableAt(j.schema, p) in j.schema.tables && j.base[u].table == TableAt(j.schema, p)
    ensures forall w :: w in Targets(OldColumn(j, p, c)) ==> IsChildOf(j.schema, j.base, u, c, w)
    ensures OldColumn(j, p, c).Map? <==> j.schema.tables[TableAt(j.schema, p)].references[c].shape == Keyed
  {
    ExistingRow(j, p);
    assert ValidRow(j.schema, j.base[u]);
    assert j.base[u].refs[c] == j.base[u].refs[c];
  }

  // ---------- what is dropped is named nowhere ----------

  /** Rows that are dropped are named nowhere. */
  lemma DroppedIsUnclaimed(j: Job, p: Path, c: Name, w: Uuid)
    requires WellPosed(j) && DroppedAt(j, p, c, w)
    ensures w in j.base && !Claimed(j, w)
  {
    if p == [] {
      TopDroppedIsUnclaimed(j, c, w);
    } else {
      ChildDroppedIsUnclaimed(j, p, c, w);
    }
  }

  lemma TopDroppedIsUnclaimed(j: Job, t: Name, w: Uuid)
    requires WellPosed(j) && TopDropped(j, t, w)
    ensures !Claimed(j, w)
  {
    if Claimed(j, w) {
      var q :| IsOld(j, q, w);
      NamedTopTable(j, q);
      ExistingRow(j, q);
    }
  }

  lemma NamedTopTable(j: Job, q: Path)
    requires WellPosed(j) && NodeAt(j.root, q).Some?
    ensures IsTopLevel(j.schema, TableAt(j.schema, q)) ==> TableAt(j.schema, q) in j.root
  {
    assert Fits(j, q);
  }

  lemma ChildDroppedIsUnclaimed(j: Job, p: Path, c: Name, w: Uuid)
    requires WellPosed(j) && DroppedAt(j, p, c, w) && p != []
    ensures w in j.base && !Claimed(j, w)
  {
    var u := Exist(j, p).value;
    assert IsOld(j, p, u);
    ColumnOf(j, p, c, u);
    assert w in Targets(OldColumn(j, p, c));
    KidIsLower(j.schema, j.base, u, c, w);
    if Claimed(j, w) {
      var q :| IsOld(j, q, w);
      ClaimedChild(j, p, u, c, w, q);
      ChildPath(p, Last(q));
      if OldColumn(j, p, c).Map? {
        var k :| k in OldColumn(j, p, c).entries && k !in KeysAt(j, p, c) && OldColumn(j, p, c).entries[k] == w;
        assert HasKey(j.schema, j.base, u, c, k);
      }
    }
  }

  lemma PlannedIsUnclaimed(j: Job, w: Uuid, x: Uuid)
    requires WellPosed(j) && ValidGraph(GraphOf(j.schema, j.base)) && !Claimed(j, w)
    requires x in PlanSet(GraphOf(j.schema, j.base), w)
    ensures x in j.base && !Claimed(j, x)
  {
    var g := GraphOf(j.schema, j.base);
    PlanIsBelow(g, w, x);
    BelowRank(g, w, x);
    UnclaimedBelow(j, g, w, x);
  }

  // ---------- no row is planned twice ----------

  lemma ContainedTable(j: Job, u: Uuid, c: Name, v: Uuid)
    requires WellPosed(j) && IsChildOf(j.schema, j.base, u, c, v)
    ensures v in j.base && !IsTopLevel(j.schema, j.base[v].table)
  {
    KidIsLower(j.schema, j.base, u, c, v);
    assert ValidColumn(j.schema, j.base[u].table, c);
  }

  /** Whoever contains a dropped row is named, or there is no such row. */
  lemma DroppedOwner(j: Job, at: Site, r: Uuid, u: Uuid, c: Name)
    requires WellPosed(j) && DroppedAt(j, at.path, at.column, r) && IsChildOf(j.schema, j.base, u, c, r)
    ensures at.path != [] && IsOld(j, at.path, u) && c == at.column
  {
    if at.path == [] {
      ContainedTable(j, u, c, r);
    } else {
      var v := Exist(j, at.path).value;
      assert IsOld(j, at.path, v);
      ColumnOf(j, at.path, at.column, v);
      assert IsChildOf(j.schema, j.base, v, at.column, r);
    }
  }

  /** No row is scheduled twice: it belongs to the plan of one dropped row only, and that row is dropped
      at one place. */
  lemma DoomedOnce(j: Job, at1: Site, at2: Site, r1: Uuid, r2: Uuid, v: Uuid)
    requires WellPosed(j) && ValidGraph(GraphOf(j.schema, j.base))
    requires DroppedAt(j, at1.path, at1.column, r1) && v in PlanSet(GraphOf(j.schema, j.base), r1)
    requires DroppedAt(j, at2.path, at2.column, r2) && v in PlanSet(GraphOf(j.schema, j.base), r2)
    ensures r1 == r2 && at1 == at2
  {
    var g := GraphOf(j.schema, j.base);
    PlanIsBelow(g, r1, v);
    PlanIsBelow(g, r2, v);
    Comparable(j, r1, r2, v);
    if r1 != r2 {
      if r2 in Below(g, r1) {
        DroppedBelow(j, at1, at2, r1, r2);
      } else {
        DroppedBelow(j, at2, at1, r2, r1);
      }
    }
    SameSite(j, at1, at2, r1);
  }

  /** Of two rows with something below them in common one is below the other. */
  lemma {:induction false} Comparable(j: Job, r1: Uuid, r2: Uuid, v: Uuid)
    requires ValidSchema(j.schema) && ValidDb(j.schema, j.base) && Forest(j.schema, j.base) && ValidGraph(GraphOf(j.schema, j.base))
    requires v in Below(GraphOf(j.schema, j.base), r1) && v in Below(GraphOf(j.schema, j.base), r2)
    ensures r2 in Below(GraphOf(j.schema, j.base), r1) || r1 in Below(GraphOf(j.schema, j.base), r2)
    decreases var g := GraphOf(j.schema, j.base); if r1 in g.rank && v in g.rank && g.rank[v] <= g.rank[r1] then g.rank[r1] - g.rank[v] else 0
  {
    var g := GraphOf(j.schema, j.base);
    BelowRank(g, r1, v);
    BelowRank(g, r2, v);
    if v != r1 && v != r2 {
      var y1 := BelowOwner(g, r1, v);
      var y2 := BelowOwner(g, r2, v);
      GraphHasOneOwner(j.schema, j.base);
      BelowRank(g, r1, y1);
      Comparable(j, r1, r2, y1);
    }
  }

  lemma DroppedBelow(j: Job, at1: Site, at2: Site, r1: Uuid, r2: Uuid)
    requires WellPosed(j) && ValidGraph(GraphOf(j.schema, j.base))
    requires DroppedAt(j, at1.path, at1.column, r1) && DroppedAt(j, at2.path, at2.column, r2)
    requires r2 in Below(GraphOf(j.schema, j.base), r1)
    ensures r1 == r2
  {
    var g := GraphOf(j.schema, j.base);
    if r1 != r2 {
      DroppedIsUnclaimed(j, at1.path, at1.column, r1);
      var y := BelowOwner(g, r1, r2);
      var c := KidsAreChildren(j.schema, j.base, y, r2);
      DroppedOwner(j, at2, r2, y, c);
      UnclaimedBelow(j, g, r1, y);
    }
  }

  lemma SameSite(j: Job, at1: Site, at2: Site, r: Uuid)
    requires WellPosed(j) && DroppedAt(j, at1.path, at1.column, r) && DroppedAt(j, at2.path, at2.column, r)
    ensures at1 == at2
  {
    if at1.path != [] || at2.path != [] {
      var at := if at1.path != [] then at1 else at2;
      var u := Exist(j, at.path).value;
      assert IsOld(j, at.path, u);
      ColumnOf(j, at.path, at.column, u);
      DroppedOwner(j, at1, r, u, at.column);
      DroppedOwner(j, at2, r, u, at.column);
      ExistInjective(j, at1.path, at2.path);
    }
  }

  lemma DoomedUnion(j: Job, a: iset<Site>, b: iset<Site>, v: Uuid)
    requires ValidGraph(GraphOf(j.schema, j.base))
    ensures Doomed(j, a + b, v) <==> Doomed(j, a, v) || Doomed(j, b, v)
  {
    if Doomed(j, a, v) {
      var at, w :| at in a && DroppedAt(j, at.path, at.column, w) && v in PlanSet(GraphOf(j.schema, j.base), w);
      assert at in a + b;
    }
    if Doomed(j, b, v) {
      var at, w :| at in b && DroppedAt(j, at.path, at.column, w) && v in PlanSet(GraphOf(j.schema, j.base), w);
      assert at in a + b;
    }
  }

  /** Rows dropped at one place have nothing below them in common. */
  lemma DroppedScattered(j: Job, p: Path, c: Name, dropped: set<Uuid>)
    requires WellPosed(j) && ValidGraph(GraphOf(j.schema, j.base))
    requires forall w {:trigger DroppedAt(j, p, c, w)} :: w in dropped ==> DroppedAt(j, p, c, w)
    ensures Scattered(GraphOf(j.schema, j.base), dropped)
  {
    var g := GraphOf(j.schema, j.base);
    forall v, w | v in dropped && w in dropped && v != w
      ensures Apart(g, {v}, {w})
    {
      forall x, y | x in BelowAll(g, {v}) && y in BelowAll(g, {w})
        ensures x != y && !Owns(g, x, y)
      {
        DroppedApart(j, At(p, c), v, w, x, y);
      }
    }
  }

  lemma DroppedApart(j: Job, at: Site, v: Uuid, w: Uuid, x: Uuid, y: Uuid)
    requires WellPosed(j) && ValidGraph(GraphOf(j.schema, j.base))
    requires DroppedAt(j, at.path, at.column, v) && DroppedAt(j, at.path, at.column, w) && v != w
    requires x in Below(GraphOf(j.schema, j.base), v) && y in Below(GraphOf(j.schema, j.base), w)
    ensures x != y && !Owns(GraphOf(j.schema, j.base), x, y)
  {
    var g := GraphOf(j.schema, j.base);
    DroppedDisjoint(j, at, v, w, x);
    if Owns(g, x, y) {
      BelowGoesOn(g, v, x, y);
      DroppedDisjoint(j, at, v, w, y);
    }
  }

  lemma DroppedDisjoint(j: Job, at: Site, v: Uuid, w: Uuid, x: Uuid)
    requires WellPosed(j) && ValidGraph(GraphOf(j.schema, j.base))
    requires DroppedAt(j, at.path, at.column, v) && DroppedAt(j, at.path, at.column, w) && v != w
    requires x in Below(GraphOf(j.schema, j.base), v)
    ensures x !in Below(GraphOf(j.schema, j.base), w)
  {
    var g := GraphOf(j.schema, j.base);
    if x in Below(g, w) {
      Comparable(j, v, w, x);
      if w in Below(g, v) {
        DroppedBelow(j, at, at, v, w);
      } else {
        DroppedBelow(j, at, at, w, v);
      }
    }
  }

  /** Different places doom different rows. */
  lemma DoomedApart(j: Job, a: iset<Site>, b: iset<Site>, v: Uuid)
    requires WellPosed(j) && ValidGraph(GraphOf(j.schema, j.base)) && a !! b
    ensures !(Doomed(j, a, v) && Doomed(j, b, v))
  {
    var g := GraphOf(j.schema, j.base);
    if Doomed(j, a, v) && Doomed(j, b, v) {
      var at1, r1 :| at1 in a && DroppedAt(j, at1.path, at1.column, r1) && v in PlanSet(g, r1);
      var at2, r2 :| at2 in b && DroppedAt(j, at2.path, at2.column, r2) && v in PlanSet(g, r2);
      DoomedOnce(j, at1, at2, r1, r2, v);
    }
  }
}
