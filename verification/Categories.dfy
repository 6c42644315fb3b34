/** Dynamic column categories: each request moves columns between the shared dictionaries of a table
    (opsrest/utils/utils.py, update_category_keys). */
module Categories {
  type Name = string
  type Text = string

  datatype Category = Configuration | Status | Statistics

  /** `source` tells for every dynamic column which column decides, `perValue` for the deciding columns
      which category goes with which value. */
  datatype Rules = Rules(source: map<Name, Name>, perValue: map<Name, map<Text, Category>>)

  /** The keys of the three dictionaries and of the reference dictionary, and the category that every
      column carries. */
  datatype Keys = Keys(config: set<Name>, status: set<Name>, stats: set<Name>, references: set<Name>, value: map<Name, Category>)

  function Columns(k: Keys): set<Name> {
    k.config + k.status + k.stats
  }

  function Members(k: Keys, c: Category): set<Name> {
    match c
    case Configuration => k.config
    case Status => k.status
    case Statistics => k.stats
  }

  /** Every column is in the dictionary of its category and in no other. */
  ghost predicate Consistent(k: Keys) {
    && k.value.Keys == Columns(k) + k.references
    && Columns(k) !! k.references
    && (forall n, c :: n in Columns(k) ==> (n in Members(k, c) <==> k.value[n] == c))
  }

  ghost predicate ValidRules(rules: Rules, k: Keys) {
    rules.source.Keys <= Columns(k) + k.references
  }

  /** The rules say where column `n` of this row belongs. */
  predicate Decided(rules: Rules, columns: set<Name>, row: map<Name, Text>, n: Name) {
    && n in rules.source
    && rules.source[n] in columns
    && rules.source[n] in rules.perValue
    && rules.source[n] in row
    && row[rules.source[n]] in rules.perValue[rules.source[n]]
  }

  function Belongs(rules: Rules, columns: set<Name>, row: map<Name, Text>, n: Name): Category
    requires Decided(rules, columns, row, n)
  {
    rules.perValue[rules.source[n]][row[rules.source[n]]]
  }

  ghost predicate AllDecided(rules: Rules, columns: set<Name>, row: map<Name, Text>) {
    forall n {:trigger n in rules.source} :: n in rules.source ==> Decided(rules, columns, row, n)
  }

  /** The dictionaries hold the same columns as before. */
  ghost predicate SameColumns(a: Keys, b: Keys) {
    Columns(a) == Columns(b) && a.references == b.references
  }

  /** From `a` to `b` at most the columns `moved` have gone where the rules put them. */
  ghost predicate Moved(rules: Rules, row: map<Name, Text>, a: Keys, b: Keys, moved: set<Name>) {
    && Consistent(b) && SameColumns(a, b)
    && (forall n :: n in a.value && n in b.value ==>
          b.value[n] == if n in moved && Decided(rules, Columns(a), row, n) then Belongs(rules, Columns(a), row, n) else a.value[n])
  }

  function Put(members: set<Name>, n: Name, here: bool): set<Name> {
    if here then members + {n} else members - {n}
  }

  /** The keys with column `n` in the dictionary `to` only. */
  function Shifted(k: Keys, n: Name, to: Category): Keys {
    Keys(Put(k.config, n, to == Configuration), Put(k.status, n, to == Status), Put(k.stats, n, to == Statistics),
         k.references, k.value[n := to])
  }

  lemma ShiftedIsConsistent(k: Keys, n: Name, to: Category)
    requires Consistent(k) && n in Columns(k)
    ensures Consistent(Shifted(k, n, to)) && SameColumns(k, Shifted(k, n, to))
  {
    var after := Shifted(k, n, to);
    assert Columns(after) == Columns(k);
    forall m, c | m in Columns(after)
      ensures m in Members(after, c) <==> after.value[m] == c
    {
      assert m in Members(k, c) <==> k.value[m] == c;
    }
  }

  lemma ReferenceIsConsistent(k: Keys, n: Name, to: Category)
    requires Consistent(k) && n in k.references
    ensures Consistent(k.(value := k.value[n := to]))
  {
    var after := k.(value := k.value[n := to]);
    forall m, c | m in Columns(after)
      ensures m in Members(after, c) <==> after.value[m] == c
    {
      assert m in Members(k, c) <==> k.value[m] == c;
    }
  }

  /** The next column follows those that have moved. */
  lemma MovedNext(rules: Rules, row: map<Name, Text>, a: Keys, b: Keys, moved: set<Name>, n: Name, after: Keys)
    requires Consistent(a) && Moved(rules, row, a, b, moved) && n !in moved && n in b.value && Decided(rules, Columns(a), row, n)
    requires Consistent(after) && SameColumns(b, after)
    requires after.value == b.value[n := Belongs(rules, Columns(a), row, n)]
    ensures Moved(rules, row, a, after, moved + {n})
  {
  }

  // ---------- one request ----------

  /** What one request does: everything if the row decides all dynamic columns, else part of it. */
  ghost predicate Request(rules: Rules, row: map<Name, Text>, a: Keys, b: Keys) {
    if AllDecided(rules, Columns(a), row) then Moved(rules, row, a, b, rules.source.Keys)
    else exists moved :: moved <= rules.source.Keys && Moved(rules, row, a, b, moved)
  }

  /** Every dynamic column is where the value of its deciding column in the row sends it: it carries that
      category and, unless it is a reference, it is in that dictionary and in no other. */
  ghost predicate AllPlaced(rules: Rules, row: map<Name, Text>, k: Keys) {
    forall n {:trigger n in rules.source} :: n in rules.source ==>
      && rules.source[n] in rules.perValue && rules.source[n] in row && row[rules.source[n]] in rules.perValue[rules.source[n]]
      && var category := rules.perValue[rules.source[n]][row[rules.source[n]]];
      && n in k.value && k.value[n] == category
      && (n in k.config <==> n !in k.references && category == Configuration)
      && (n in k.status <==> n !in k.references && category == Status)
      && (n in k.stats <==> n !in k.references && category == Statistics)
  }

  lemma MovedIsPlaced(rules: Rules, row: map<Name, Text>, a: Keys, b: Keys)
    requires Consistent(a) && ValidRules(rules, a) && AllDecided(rules, Columns(a), row) && Moved(rules, row, a, b, rules.source.Keys)
    ensures AllPlaced(rules, row, b)
  {
    forall n | n in rules.source
      ensures n in b.value && Decided(rules, Columns(a), row, n) && b.value[n] == rules.perValue[rules.source[n]][row[rules.source[n]]]
      ensures n in b.config <==> n !in b.references && b.value[n] == Configuration
      ensures n in b.status <==> n !in b.references && b.value[n] == Status
      ensures n in b.stats <==> n !in b.references && b.value[n] == Statistics
    {
      assert n in b.value;
      assert n in Members(b, Configuration) ==> n in Columns(b);
      assert n in Members(b, Status) ==> n in Columns(b);
      assert n in Members(b, Statistics) ==> n in Columns(b);
    }
  }

  class CategoryKeys {
    const rules: Rules
    var config: set<Name>
    var status: set<Name>
    var stats: set<Name>
    var value: map<Name, Category>
    const references: set<Name>

    constructor (rules: Rules, k: Keys)
      ensures this.rules == rules && State() == k
    {
      this.rules, references := rules, k.references;
      config, status, stats, value := k.config, k.status, k.stats, k.value;
    }

    function State(): Keys
      reads this
    {
      Keys(config, status, stats, references, value)
    }

    /** Takes a column out of one dictionary and puts it into another. */
    method Move(n: Name, from: Category, to: Category)
      requires Consistent(State()) && n in Columns(State()) && value[n] == from && from != to
      modifies this
      ensures Consistent(State()) && SameColumns(old(State()), State())
      ensures value == old(value)[n := to]
    {
      ghost var before := State();
      ShiftedIsConsistent(before, n, to);
      value := value[n := to];
      match to {
        case Configuration => config := config + {n};
        case Status => status := status + {n};
        case Statistics => stats := stats + {n};
      }
      match from {
        case Configuration => config := config - {n};
        case Status => status := status - {n};
        case Statistics => stats := stats - {n};
      }
      assert n in Members(before, Configuration) <==> from == Configuration;
      assert n in Members(before, Status) <==> from == Status;
      assert n in Members(before, Statistics) <==> from == Statistics;
      assert State() == Shifted(before, n, to);
    }

    /** Gives one column its category. */
    method Recategorise(n: Name, category: Category)
      requires Consistent(State()) && n in value
      modifies this
      ensures Consistent(State()) && SameColumns(old(State()), State())
      ensures value == old(value)[n := category]
    {
      var previous := value[n];
      if previous != category {
        if n in config + status + stats {
          Move(n, previous, category);
        } else {
          ReferenceIsConsistent(State(), n, category);
          value := value[n := category];
          assert State() == old(State()).(value := value);
        }
      }
    }

    /** Moves every dynamic column to its category; stops at the first one that cannot be decided. */
    method UpdateCategoryKeys(row: map<Name, Text>) returns (ok: bool)
      requires Consistent(State()) && ValidRules(rules, State())
      modifies this
      ensures Request(rules, row, old(State()), State())
      ensures ok <==> forall n :: n in rules.source ==>
                && rules.source[n] in old(config + status + stats) && rules.source[n] in rules.perValue
                && rules.source[n] in row && row[rules.source[n]] in rules.perValue[rules.source[n]]
      ensures ok ==> AllPlaced(rules, row, State())
      ensures Consistent(State()) && forall n :: n in old(value) && n !in rules.source ==> n in value && value[n] == old(value[n])
    {
      var columns := config + status + stats;
      ghost var start, done: set<Name> := State(), {};
      var todo := rules.source.Keys;
      while todo != {}
        invariant done !! todo && done + todo == rules.source.Keys
        invariant Moved(rules, row, start, State(), done)
        invariant forall n :: n in done ==> Decided(rules, columns, row, n)
        decreases todo
      {
        var n :| n in todo;
        if !Decided(rules, columns, row, n) {
          assert done <= rules.source.Keys;
          return false;
        }
        ghost var before := State();
        Recategorise(n, Belongs(rules, columns, row, n));
        MovedNext(rules, row, start, before, done, n, State());
        todo, done := todo - {n}, done + {n};
      }
      assert done == rules.source.Keys;
      MovedIsPlaced(rules, row, start, State());
      ok := true;
    }
  }

  // ---------- any number of requests ----------

  ghost predicate Requests(rules: Rules, rows: seq<map<Name, Text>>, states: seq<Keys>) {
    && |states| == |rows| + 1
    && Consistent(states[0]) && ValidRules(rules, states[0])
    && (forall i {:trigger rows[i]} :: 0 <= i < |rows| ==> Request(rules, rows[i], states[i], states[i + 1]))
  }

  /** Only the dynamic columns differ. */
  ghost predicate SameButDynamic(rules: Rules, a: Keys, b: Keys) {
    && SameColumns(a, b)
    && (forall n :: n in a.value && n in b.value && n !in rules.source ==> a.value[n] == b.value[n])
  }

  lemma {:induction false} RequestsKeep(rules: Rules, rows: seq<map<Name, Text>>, states: seq<Keys>, i: nat)
    requires Requests(rules, rows, states) && i <= |rows|
    ensures Consistent(states[i]) && SameButDynamic(rules, states[0], states[i])
  {
    if i > 0 {
      RequestsKeep(rules, rows, states, i - 1);
      assert Request(rules, rows[i - 1], states[i - 1], states[i]);
    }
  }

  /** Consistent keys are told apart by the categories of their columns. */
  lemma SameKeys(a: Keys, b: Keys)
    requires Consistent(a) && Consistent(b) && SameColumns(a, b) && a.value == b.value
    ensures a == b
  {
    forall c
      ensures Members(a, c) == Members(b, c)
    {
      forall n
        ensures n in Members(a, c) <==> n in Members(b, c)
      {
        assert n in Members(a, c) ==> n in Columns(a);
        assert n in Members(b, c) ==> n in Columns(b);
      }
    }
    assert Members(a, Configuration) == Members(b, Configuration);
    assert Members(a, Status) == Members(b, Status);
    assert Members(a, Statistics) == Members(b, Statistics);
  }

  /** Where a request that decides everything leaves the columns does not depend on the requests before. */
  lemma HistoryIndependent(rules: Rules, start: Keys, row: map<Name, Text>, rows1: seq<map<Name, Text>>, states1: seq<Keys>,
                           rows2: seq<map<Name, Text>>, states2: seq<Keys>, end1: Keys, end2: Keys)
    requires Requests(rules, rows1, states1) && Requests(rules, rows2, states2) && states1[0] == start == states2[0]
    requires AllDecided(rules, Columns(start), row)
    requires Request(rules, row, states1[|rows1|], end1) && Request(rules, row, states2[|rows2|], end2)
    ensures end1 == end2
    ensures AllPlaced(rules, row, end1)
    ensures forall n :: n in start.value && n !in rules.source ==> n in end1.value && end1.value[n] == start.value[n]
  {
    RequestsKeep(rules, rows1, states1, |rows1|);
    RequestsKeep(rules, rows2, states2, |rows2|);
    MovedIsPlaced(rules, row, states1[|rows1|], end1);
    forall n | n in rules.source
      ensures Decided(rules, Columns(start), row, n)
    {
    }
    assert end1.value == end2.value;
    SameKeys(end1, end2);
  }

  /** A second request for the same row changes nothing. */
  lemma Idempotent(rules: Rules, row: map<Name, Text>, a: Keys, b: Keys, c: Keys)
    requires Consistent(a) && ValidRules(rules, a) && AllDecided(rules, Columns(a), row)
    requires Request(rules, row, a, b) && Request(rules, row, b, c)
    ensures b == c
  {
    forall n | n in rules.source
      ensures Decided(rules, Columns(a), row, n)
    {
    }
    assert b.value == c.value;
    SameKeys(b, c);
  }
}
